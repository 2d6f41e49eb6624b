/** Lookup paths over related models: which fields a filter's path visits, and the corrected path it becomes. */
module LookupPath {
  import opened Wrappers

  type ModelName = string

  /** `key` is what fields are compared by; `related` is the model the field leads to. */
  datatype Field = Field(key: nat, related: Option<ModelName>, searchable: bool)

  datatype Error = NoRelatedModel | PasswordField | NotSearchable | NoSuchField | FieldRepeated

  /** `reverse` are the relations from other models, by their query names; `fields` everything that can be named. */
  datatype Model = Model(pk: Field, reverse: map<string, Field>, fields: map<string, Field>, passwords: set<string>)

  type Schema = map<ModelName, Model>

  // ---------------------------------------------------------------- one part

  /** The names by which old clients filter projects and inventory sources. */
  function Renamed(model: ModelName, name: string): string {
    if model != "Project" && model != "InventorySource" then name
    else if name == "current_update" then "current_job"
    else if name == "last_update" then "last_job"
    else if name == "last_update_failed" then "last_job_failed"
    else if name == "last_updated" then "last_job_run"
    else name
  }

  /** Without its underscores. */
  function Squeeze(name: string): (r: string)
    ensures '_' !in r && ('_' !in name ==> r == name)
    ensures forall c :: c != '_' ==> (c in r <==> c in name)
  {
    if name == "" then ""
    else if name[0] == '_' then Squeeze(name[1..])
    else [name[0]] + Squeeze(name[1..])
  }

  /** The name looked up for a part, and what takes its place in the corrected path. */
  function Named(s: Schema, model: ModelName, part: string): (string, seq<string>) {
    var name := Renamed(model, part);
    if name == "type" && model in s && "polymorphic_ctype" in s[model].fields then
      ("polymorphic_ctype", ["polymorphic_ctype", "model"])
    else (name, [name])
  }

  datatype Step = Step(field: Field, parts: seq<string>)

  function Resolve(s: Schema, model: ModelName, part: string): Result<Step, Error> {
    if model !in s then Err(NoSuchField)
    else
      var (name, parts) := Named(s, model, part);
      if name in s[model].passwords then Err(PasswordField)
      else if name == "pk" then Ok(Step(s[model].pk, parts))
      else
        var alt := Squeeze(name);
        if alt in s[model].reverse then
          if s[model].reverse[alt].searchable then Ok(Step(s[model].reverse[alt], [alt])) else Err(NotSearchable)
        else if name !in s[model].fields then Err(NoSuchField)
        else if s[model].fields[name].searchable then Ok(Step(s[model].fields[name], parts)) else Err(NotSearchable)
  }

  /** Old names of projects and inventory sources. */
  const OLD_NAMES: map<string, string> := map[
    "current_update" := "current_job", "last_update" := "last_job",
    "last_update_failed" := "last_job_failed", "last_updated" := "last_job_run"]

  /** The name a part is looked up by. */
  ghost predicate LookedUpAs(s: Schema, model: ModelName, part: string, name: string) {
    if model in {"Project", "InventorySource"} && part in OLD_NAMES then name == OLD_NAMES[part]
    else if part == "type" && model in s && "polymorphic_ctype" in s[model].fields then name == "polymorphic_ctype"
    else name == part
  }

  /** The name is the primary key, a reverse relation once underscores are dropped, or any other field. */
  ghost predicate Means(m: Model, name: string, f: Field) {
    if name == "pk" then f == m.pk
    else if Squeeze(name) in m.reverse then f == m.reverse[Squeeze(name)]
    else name in m.fields && f == m.fields[name]
  }

  /** A part leads to the field it names, unless that is a password or, the primary key apart, must not be searched. */
  ghost predicate LeadsTo(s: Schema, model: ModelName, part: string, f: Field) {
    model in s && exists name ::
      LookedUpAs(s, model, part, name) && name !in s[model].passwords && Means(s[model], name, f) &&
      (name == "pk" || f.searchable)
  }

  lemma NamesApart()
    ensures "current_update" != "last_update" && "current_update" != "last_update_failed"
    ensures "current_update" != "last_updated" && "last_update" != "last_update_failed"
    ensures "last_update" != "last_updated" && "last_update_failed" != "last_updated"
    ensures forall n :: n in OLD_NAMES ==> n != "type" && OLD_NAMES[n] != "type"
  {
    assert |"current_update"| == 14 && |"last_update"| == 11 && |"last_update_failed"| == 18 && |"last_updated"| == 12;
    assert |"current_job"| == 11 && |"last_job"| == 8 && |"last_job_failed"| == 15 && |"last_job_run"| == 12;
    assert |"type"| == 4;
  }

  lemma NameLookedUp(s: Schema, model: ModelName, part: string)
    ensures forall name :: LookedUpAs(s, model, part, name) <==> name == Named(s, model, part).0
  {
    NamesApart();
  }

  /** One part resolves exactly to the field it leads to; and what is refused is refused for its own reason. */
  lemma ResolvedExactly(s: Schema, model: ModelName, part: string)
    ensures forall f :: Resolve(s, model, part).Ok? && Resolve(s, model, part).value.field == f <==>
                        LeadsTo(s, model, part, f)
    ensures model in s ==> forall name :: LookedUpAs(s, model, part, name) ==>
              && (Resolve(s, model, part) == Err(PasswordField) <==> name in s[model].passwords)
              && (Resolve(s, model, part) == Err(NoSuchField) <==>
                    name !in s[model].passwords && forall f :: !Means(s[model], name, f))
              && (Resolve(s, model, part) == Err(NotSearchable) <==>
                    && name !in s[model].passwords && name != "pk"
                    && exists f :: Means(s[model], name, f) && !f.searchable)
  {
    NameLookedUp(s, model, part);
    if model in s {
      var name := Named(s, model, part).0;
      MeansOne(s[model], name);
    }
  }

  /** A name means at most one field. */
  lemma MeansOne(m: Model, name: string)
    ensures forall f, g :: Means(m, name, f) && Means(m, name, g) ==> f == g
    ensures name == "pk" || Squeeze(name) in m.reverse || name in m.fields ==> exists f :: Means(m, name, f)
  {
    if name == "pk" {
      assert Means(m, name, m.pk);
    } else if Squeeze(name) in m.reverse {
      assert Means(m, name, m.reverse[Squeeze(name)]);
    } else if name in m.fields {
      assert Means(m, name, m.fields[name]);
    }
  }

  // ---------------------------------------------------------------- the traversal

  datatype Found = Found(fields: seq<Field>, parts: seq<string>)

  /** Resolve part after part, each on the model the last field led to, refusing a field seen before. */
  function Traverse(s: Schema, model: Option<ModelName>, parts: seq<string>, seen: set<nat>): Result<Found, Error>
    decreases |parts|
  {
    if parts == [] then Ok(Found([], []))
    else if model.None? then Err(NoRelatedModel)
    else
      match Resolve(s, model.value, parts[0])
      case Err(e) => Err(e)
      case Ok(step) =>
        if step.field.key in seen then Err(FieldRepeated)
        else
          match Traverse(s, step.field.related, parts[1..], seen + {step.field.key})
          case Err(e) => Err(e)
          case Ok(rest) => Ok(Found([step.field] + rest.fields, step.parts + rest.parts))
  }

  /** Each field is what its part names on the model the field before it leads to. */
  ghost predicate Walks(s: Schema, model: Option<ModelName>, parts: seq<string>, fields: seq<Field>)
    decreases |parts|
  {
    if parts == [] then fields == []
    else
      && fields != [] && model.Some?
      && LeadsTo(s, model.value, parts[0], fields[0])
      && Walks(s, fields[0].related, parts[1..], fields[1..])
  }

  ghost predicate Distinct(fields: seq<Field>) {
    forall i, j :: 0 <= i < j < |fields| ==> fields[i].key != fields[j].key
  }

  ghost predicate Avoids(fields: seq<Field>, seen: set<nat>) {
    forall i :: 0 <= i < |fields| ==> fields[i].key !in seen
  }

  /** A path has at most one walk. */
  lemma {:induction false} OneWalk(s: Schema, model: Option<ModelName>, parts: seq<string>, a: seq<Field>,
                                   b: seq<Field>)
    requires Walks(s, model, parts, a) && Walks(s, model, parts, b)
    ensures a == b
    decreases |parts|
  {
    if parts != [] {
      ResolvedExactly(s, model.value, parts[0]);
      OneWalk(s, a[0].related, parts[1..], a[1..], b[1..]);
      assert a == [a[0]] + a[1..] && b == [b[0]] + b[1..];
    }
  }

  lemma {:induction false} AcceptedWalks(s: Schema, model: Option<ModelName>, parts: seq<string>, seen: set<nat>)
    requires Traverse(s, model, parts, seen).Ok?
    ensures var fields := Traverse(s, model, parts, seen).value.fields;
            Walks(s, model, parts, fields) && Distinct(fields) && Avoids(fields, seen) && |fields| == |parts|
    decreases |parts|
  {
    if parts != [] {
      var step := Resolve(s, model.value, parts[0]).value;
      ResolvedExactly(s, model.value, parts[0]);
      AcceptedWalks(s, step.field.related, parts[1..], seen + {step.field.key});
    }
  }

  lemma {:induction false} WalkAccepted(s: Schema, model: Option<ModelName>, parts: seq<string>, seen: set<nat>,
                                        fields: seq<Field>)
    requires Walks(s, model, parts, fields) && Distinct(fields) && Avoids(fields, seen)
    ensures Traverse(s, model, parts, seen).Ok? && Traverse(s, model, parts, seen).value.fields == fields
    decreases |parts|
  {
    if parts != [] {
      assert forall i :: 0 <= i < |fields| - 1 ==> fields[1..][i] == fields[i + 1];
      ResolvedExactly(s, model.value, parts[0]);
      WalkAccepted(s, fields[0].related, parts[1..], seen + {fields[0].key}, fields[1..]);
    }
  }

  /** A path is accepted exactly when it walks over pairwise different fields. */
  lemma AcceptedExactly(s: Schema, model: ModelName, parts: seq<string>)
    ensures Traverse(s, Some(model), parts, {}).Ok? <==>
            exists fields :: Walks(s, Some(model), parts, fields) && Distinct(fields)
  {
    if Traverse(s, Some(model), parts, {}).Ok? {
      AcceptedWalks(s, Some(model), parts, {});
    }
    forall fields | Walks(s, Some(model), parts, fields) && Distinct(fields)
      ensures Traverse(s, Some(model), parts, {}).Ok?
    {
      WalkAccepted(s, Some(model), parts, {}, fields);
    }
  }

  // ---------------------------------------------------------------- how long a path can be

  ghost function ModelKeys(m: Model): set<nat> {
    {m.pk.key} + (set n | n in m.reverse :: m.reverse[n].key) + (set n | n in m.fields :: m.fields[n].key)
  }

  ghost function AllKeys(s: Schema): set<nat> {
    set m, k | m in s && k in ModelKeys(s[m]) :: k
  }

  lemma {:induction false} WalkInSchema(s: Schema, model: Option<ModelName>, parts: seq<string>, fields: seq<Field>)
    requires Walks(s, model, parts, fields)
    ensures forall i :: 0 <= i < |fields| ==> fields[i].key in AllKeys(s)
    decreases |parts|
  {
    if parts != [] {
      assert fields[0].key in ModelKeys(s[model.value]);
      WalkInSchema(s, fields[0].related, parts[1..], fields[1..]);
      assert forall i :: 1 <= i < |fields| ==> fields[i] == fields[1..][i - 1];
    }
  }

  lemma {:induction false} Pigeonhole(fields: seq<Field>, keys: set<nat>)
    requires Distinct(fields) && forall i :: 0 <= i < |fields| ==> fields[i].key in keys
    ensures |fields| <= |keys|
    decreases |fields|
  {
    if fields != [] {
      var rest, last := fields[..|fields| - 1], fields[|fields| - 1];
      Pigeonhole(rest, keys - {last.key});
    }
  }

  /** However cyclic the schema, an accepted path has no more parts than the schema has fields. */
  lemma AcceptedIsShort(s: Schema, model: ModelName, parts: seq<string>)
    requires Traverse(s, Some(model), parts, {}).Ok?
    ensures |parts| <= |AllKeys(s)|
  {
    AcceptedWalks(s, Some(model), parts, {});
    var fields := Traverse(s, Some(model), parts, {}).value.fields;
    WalkInSchema(s, Some(model), parts, fields);
    Pigeonhole(fields, AllKeys(s));
  }

  // ---------------------------------------------------------------- what the corrected path means

  /** A name as the database layer takes it: no old names, no squeezing. */
  function Plain(s: Schema, model: ModelName, name: string): Option<Field> {
    if model !in s then None
    else if name == "pk" then Some(s[model].pk)
    else if name in s[model].fields then Some(s[model].fields[name])
    else None
  }

  ghost predicate PlainWalks(s: Schema, model: Option<ModelName>, parts: seq<string>, fields: seq<Field>)
    decreases |parts|
  {
    if parts == [] then fields == []
    else
      && fields != [] && model.Some?
      && Plain(s, model.value, parts[0]) == Some(fields[0])
      && PlainWalks(s, fields[0].related, parts[1..], fields[1..])
  }

  /** Reverse relations can be named, and the type of an object is a row whose `model` leads nowhere. */
  ghost predicate WellFormed(s: Schema) {
    && (forall m, n :: m in s && n in s[m].reverse ==>
        n != "pk" && n in s[m].fields && s[m].fields[n] == s[m].reverse[n])
    && (forall m :: m in s && "polymorphic_ctype" in s[m].fields ==> TypeRow(s, s[m]))
  }

  ghost predicate TypeRow(s: Schema, m: Model)
    requires "polymorphic_ctype" in m.fields
  {
    var f := m.fields["polymorphic_ctype"];
    && Squeeze("polymorphic_ctype") !in m.reverse
    && f.related.Some? && f.related.value in s
    && "model" in s[f.related.value].fields
    && s[f.related.value].fields["model"].related.None?
  }

  predicate IsType(s: Schema, model: ModelName, part: string) {
    Renamed(model, part) == "type" && model in s && "polymorphic_ctype" in s[model].fields
  }

  /** The path names the type of an object only at its end. */
  ghost predicate TypeOnlyLast(s: Schema, model: Option<ModelName>, parts: seq<string>)
    decreases |parts|
  {
    parts != [] && model.Some? && Resolve(s, model.value, parts[0]).Ok? ==>
      && (IsType(s, model.value, parts[0]) ==> |parts| == 1)
      && TypeOnlyLast(s, Resolve(s, model.value, parts[0]).value.field.related, parts[1..])
  }

  /** One part of the corrected path names the same field. */
  lemma PlainPart(s: Schema, model: ModelName, part: string)
    requires WellFormed(s) && Resolve(s, model, part).Ok?
    ensures var step := Resolve(s, model, part).value;
            && Plain(s, model, step.parts[0]) == Some(step.field)
            && |step.parts| == (if IsType(s, model, part) then 2 else 1)
            && (IsType(s, model, part) ==>
                  && step.field.related.Some?
                  && Plain(s, step.field.related.value, step.parts[1]).Some?
                  && Plain(s, step.field.related.value, step.parts[1]).value.related.None?)
  {
    if IsType(s, model, part) {
      assert TypeRow(s, s[model]);
      assert |"polymorphic_ctype"| == 17 && |"pk"| == 2 && |"model"| == 5;
    }
  }

  lemma PlainCons(s: Schema, model: ModelName, name: string, rest: seq<string>, fields: seq<Field>)
    ensures PlainWalks(s, Some(model), [name] + rest, fields) <==>
            fields != [] && Plain(s, model, name) == Some(fields[0]) &&
                PlainWalks(s, fields[0].related, rest, fields[1..])
  {
    assert ([name] + rest)[1..] == rest;
  }

  lemma TraverseStep(s: Schema, model: ModelName, parts: seq<string>, seen: set<nat>) returns (step: Step, rest: Found)
    requires parts != [] && Traverse(s, Some(model), parts, seen).Ok?
    ensures Resolve(s, model, parts[0]) == Ok(step)
    ensures Traverse(s, step.field.related, parts[1..], seen + {step.field.key}) == Ok(rest)
    ensures Traverse(s, Some(model), parts, seen) == Ok(Found([step.field] + rest.fields, step.parts + rest.parts))
  {
    step := Resolve(s, model, parts[0]).value;
    rest := Traverse(s, step.field.related, parts[1..], seen + {step.field.key}).value;
  }

  /** The two parts that stand for a type. */
  lemma PlainType(s: Schema, model: ModelName, part: string, rest: seq<string>, fields: seq<Field>)
    requires WellFormed(s) && Resolve(s, model, part).Ok? && IsType(s, model, part)
    ensures var step := Resolve(s, model, part).value;
            PlainWalks(s, Some(model), step.parts + rest, fields) <==>
            && rest == [] && |fields| == 2 && fields[0] == step.field
            && Plain(s, step.field.related.value, step.parts[1]) == Some(fields[1])
  {
    PlainPart(s, model, part);
    var step := Resolve(s, model, part).value;
    assert step.parts + rest == [step.parts[0]] + ([step.parts[1]] + rest);
    PlainCons(s, model, step.parts[0], [step.parts[1]] + rest, fields);
    if fields != [] {
      PlainCons(s, step.field.related.value, step.parts[1], rest, fields[1..]);
    }
  }

  lemma TypeAtEnd(s: Schema, model: ModelName, part: string) returns (extra: seq<Field>)
    requires WellFormed(s) && Resolve(s, model, part).Ok? && IsType(s, model, part)
    ensures |extra| == 1
    ensures PlainWalks(s, Some(model), Resolve(s, model, part).value.parts,
                       [Resolve(s, model, part).value.field] + extra)
  {
    PlainPart(s, model, part);
    var step := Resolve(s, model, part).value;
    extra := [Plain(s, step.field.related.value, step.parts[1]).value];
    PlainType(s, model, part, [], [step.field] + extra);
    assert step.parts + [] == step.parts;
  }

  lemma PlainMore(s: Schema, model: ModelName, step: Step, rest: Found, extra: seq<Field>)
    requires |step.parts| == 1 && Plain(s, model, step.parts[0]) == Some(step.field)
    requires PlainWalks(s, step.field.related, rest.parts, rest.fields + extra)
    ensures PlainWalks(s, Some(model), step.parts + rest.parts, [step.field] + rest.fields + extra)
  {
    var fields := [step.field] + rest.fields + extra;
    assert fields[1..] == rest.fields + extra && step.parts == [step.parts[0]];
    PlainCons(s, model, step.parts[0], rest.parts, fields);
  }

  /** The fields of the corrected path, as the database layer reads it: those the check visited, followed by the
      type's own name when the path ends in a type. */
  lemma {:induction false} CorrectedSameFields(s: Schema, model: Option<ModelName>, parts: seq<string>, seen: set<nat>)
    returns (extra: seq<Field>)
    requires WellFormed(s) && Traverse(s, model, parts, seen).Ok? && TypeOnlyLast(s, model, parts)
    ensures |extra| <= 1
    ensures PlainWalks(s, model, Traverse(s, model, parts, seen).value.parts,
                       Traverse(s, model, parts, seen).value.fields + extra)
    decreases |parts|
  {
    if parts == [] {
      extra := [];
    } else {
      PlainPart(s, model.value, parts[0]);
      var step, rest := TraverseStep(s, model.value, parts, seen);
      if IsType(s, model.value, parts[0]) {
        extra := TypeAtEnd(s, model.value, parts[0]);
        assert [step.field] + [] + extra == [step.field] + extra && step.parts + [] == step.parts;
      } else {
        extra := CorrectedSameFields(s, step.field.related, parts[1..], seen + {step.field.key});
        PlainMore(s, model.value, step, rest, extra);
      }
    }
  }

  lemma {:induction false} TypeInsideBreaks(s: Schema, model: Option<ModelName>, parts: seq<string>, seen: set<nat>,
                                            fields: seq<Field>)
    requires WellFormed(s) && Traverse(s, model, parts, seen).Ok?
    requires PlainWalks(s, model, Traverse(s, model, parts, seen).value.parts, fields)
    ensures TypeOnlyLast(s, model, parts)
    decreases |parts|
  {
    if parts != [] {
      PlainPart(s, model.value, parts[0]);
      var step, rest := TraverseStep(s, model.value, parts, seen);
      if IsType(s, model.value, parts[0]) {
        PlainType(s, model.value, parts[0], rest.parts, fields);
        NextPart(s, step.field.related, parts[1..], seen + {step.field.key});
      } else {
        PlainCons(s, model.value, step.parts[0], rest.parts, fields);
        TypeInsideBreaks(s, step.field.related, parts[1..], seen + {step.field.key}, fields[1..]);
      }
    }
  }

  lemma NextPart(s: Schema, model: Option<ModelName>, parts: seq<string>, seen: set<nat>)
    requires WellFormed(s) && Traverse(s, model, parts, seen).Ok?
    ensures parts != [] ==> Traverse(s, model, parts, seen).value.parts != []
  {
    if parts != [] {
      PlainPart(s, model.value, parts[0]);
    }
  }

  ghost predicate Readable(s: Schema, model: ModelName, parts: seq<string>) {
    exists fields :: PlainWalks(s, Some(model), parts, fields)
  }

  /** The corrected path of an accepted one can be read by the database layer exactly when the path names an
      object's type nowhere but at its end. */
  lemma CorrectedReadableExactly(s: Schema, model: ModelName, parts: seq<string>)
    requires WellFormed(s) && Traverse(s, Some(model), parts, {}).Ok?
    ensures Readable(s, model, Traverse(s, Some(model), parts, {}).value.parts) <==> TypeOnlyLast(s, Some(model), parts)
  {
    var found := Traverse(s, Some(model), parts, {}).value;
    if TypeOnlyLast(s, Some(model), parts) {
      var extra := CorrectedSameFields(s, Some(model), parts, {});
      assert PlainWalks(s, Some(model), found.parts, found.fields + extra);
    }
    forall fields | PlainWalks(s, Some(model), found.parts, fields) ensures TypeOnlyLast(s, Some(model), parts) {
      TypeInsideBreaks(s, Some(model), parts, {}, fields);
    }
  }

  const TYPE_KEY: Field := Field(0, Some("ContentType"), true)
  const ID_FIELD: Field := Field(1, None, true)
  const NAME_FIELD: Field := Field(2, None, true)

  /** A model with a type, and the model of types. */
  const TYPED: Schema := map[
    "Job" := Model(ID_FIELD, map[], map["polymorphic_ctype" := TYPE_KEY], {}),
    "ContentType" := Model(ID_FIELD, map[], map["id" := ID_FIELD, "model" := NAME_FIELD], {})]

  lemma TypedWellFormed()
    ensures WellFormed(TYPED)
  {
    assert |"Job"| == 3 && |"ContentType"| == 11;
    assert |"polymorphic_ctype"| == 17 && |"id"| == 2 && |"model"| == 5;
    assert TypeRow(TYPED, TYPED["Job"]);
  }

  /** The path from a job through its type to the type's id is accepted, and cannot be read once corrected. */
  lemma TypeInside()
    ensures WellFormed(TYPED)
    ensures Traverse(TYPED, Some("Job"), ["type", "id"], {}) ==
            Ok(Found([TYPE_KEY, ID_FIELD], ["polymorphic_ctype", "model", "id"]))
    ensures !Readable(TYPED, "Job", ["polymorphic_ctype", "model", "id"])
  {
    TypedWellFormed();
    TypeThenId();
    TwoParts(TYPED, "Job", "type", "id");
    var fields, path := [TYPE_KEY] + [ID_FIELD], ["polymorphic_ctype", "model"] + ["id"];
    assert fields == [TYPE_KEY, ID_FIELD] && path == ["polymorphic_ctype", "model", "id"];
    CorrectedReadableExactly(TYPED, "Job", ["type", "id"]);
  }

  /** A path of two parts, the first of which is a type. */
  lemma TwoParts(s: Schema, model: ModelName, first: string, second: string)
    requires Resolve(s, model, first).Ok? && Resolve(s, model, first).value.field.related.Some?
    requires Resolve(s, Resolve(s, model, first).value.field.related.value, second).Ok?
    requires Resolve(s, Resolve(s, model, first).value.field.related.value, second).value.field.key !=
             Resolve(s, model, first).value.field.key
    ensures var a := Resolve(s, model, first).value;
            var b := Resolve(s, a.field.related.value, second).value;
            Traverse(s, Some(model), [first, second], {}) == Ok(Found([a.field] + [b.field], a.parts + b.parts))
    ensures IsType(s, model, first) ==> !TypeOnlyLast(s, Some(model), [first, second])
  {
    var a := Resolve(s, model, first).value;
    var b := Resolve(s, a.field.related.value, second).value;
    assert [first, second][1..] == [second] && [second][1..] == [];
    var none: set<nat> := {};
    assert none + {a.field.key} == {a.field.key} && {a.field.key} + {b.field.key} == {a.field.key, b.field.key};
    assert Traverse(s, b.field.related, [], {a.field.key, b.field.key}) == Ok(Found([], []));
    assert [b.field] + [] == [b.field] && b.parts + [] == b.parts;
    assert Traverse(s, a.field.related, [second], {a.field.key}) == Ok(Found([b.field], b.parts));
  }

  lemma TypeThenId()
    ensures Resolve(TYPED, "Job", "type") == Ok(Step(TYPE_KEY, ["polymorphic_ctype", "model"])) &&
            IsType(TYPED, "Job", "type")
    ensures Resolve(TYPED, "ContentType", "id") == Ok(Step(ID_FIELD, ["id"]))
  {
    assert |"Job"| == 3 && |"ContentType"| == 11 && |"Project"| == 7 && |"InventorySource"| == 15;
    assert |"polymorphic_ctype"| == 17 && |"pk"| == 2 && |"id"| == 2 && |"type"| == 4 && "pk"[0] != "id"[0];
  }

  // ---------------------------------------------------------------- the loop

  method GetFieldFromPath(s: Schema, model: ModelName, parts: seq<string>) returns (r: Result<Found, Error>)
    ensures r == Traverse(s, Some(model), parts, {})
  {
    var seen: set<nat> := {};
    var current := Some(model);
    var done := Found([], []);
    var i := 0;
    NoPrefix(Traverse(s, Some(model), parts, {}));
    assert parts[0..] == parts;
    while i < |parts|
      invariant 0 <= i <= |parts|
      invariant Prefixed(done, Traverse(s, current, parts[i..], seen)) == Traverse(s, Some(model), parts, {})
    {
      if current.None? {
        return Err(NoRelatedModel);
      }
      var resolved := Resolve(s, current.value, parts[i]);
      if resolved.Err? {
        return Err(resolved.error);
      }
      var step := resolved.value;
      if step.field.key in seen {
        return Err(FieldRepeated);
      }
      PrefixStep(done, step, Traverse(s, step.field.related, parts[i + 1..], seen + {step.field.key}));
      assert parts[i..][1..] == parts[i + 1..];
      seen := seen + {step.field.key};
      done := Found(done.fields + [step.field], done.parts + step.parts);
      current := step.field.related;
      i := i + 1;
    }
    assert done.fields + [] == done.fields && done.parts + [] == done.parts;
    r := Ok(done);
  }

  function Prefixed(before: Found, rest: Result<Found, Error>): Result<Found, Error> {
    match rest
    case Err(e) => Err(e)
    case Ok(found) => Ok(Found(before.fields + found.fields, before.parts + found.parts))
  }

  lemma NoPrefix(rest: Result<Found, Error>)
    ensures Prefixed(Found([], []), rest) == rest
  {
    if rest.Ok? {
      assert [] + rest.value.fields == rest.value.fields && [] + rest.value.parts == rest.value.parts;
    }
  }

  lemma PrefixStep(before: Found, step: Step, rest: Result<Found, Error>)
    ensures Prefixed(before, Prefixed(Found([step.field], step.parts), rest)) ==
            Prefixed(Found(before.fields + [step.field], before.parts + step.parts), rest)
  {
    if rest.Ok? {
      assert before.fields + ([step.field] + rest.value.fields) == before.fields + [step.field] + rest.value.fields;
      assert before.parts + (step.parts + rest.value.parts) == before.parts + step.parts + rest.value.parts;
    }
  }
}
