/**
 What a schema accepts, before and after the nullable rewrite. `JsonSchema` is the reading of the
 3.1 document (JSON Schema 2020-12: `type` may list types, `oneOf` needs exactly one match);
 `OpenApi30` adds that `nullable: true` also accepts null. A keyword this module does not interpret
 asserts whatever the parameter `other` says about its value and the instance.
 */
module SchemaMeaning {
  import opened Json
  import opened NullableNormaliser

  datatype Draft = JsonSchema | OpenApi30

  type Assertion = (string, Value, Value) -> bool

  predicate HasType(t: string, inst: Value) {
    match inst
    case Null => t == "null"
    case Bool(_) => t == "boolean"
    case Number(n) => t == "number" || (t == "integer" && n == n.Floor as real)
    case String(_) => t == "string"
    case Array(_) => t == "array"
    case Object(_) => t == "object"
  }

  predicate Nullable(m: Entries) {
    "nullable" in m && m["nullable"] == Bool(true)
  }

  predicate Accepts(schema: Value, inst: Value, draft: Draft, other: Assertion)
    decreases schema, 0
  {
    match schema
    case Object(m) =>
      || (draft.OpenApi30? && inst.Null? && Nullable(m))
      || forall k | k in m :: Keyword(k, m[k], inst, draft, other)
    case Bool(b) => b
    case _ => true
  }

  predicate Keyword(k: string, v: Value, inst: Value, draft: Draft, other: Assertion)
    decreases v, 1
  {
    if k == "type" then Typed(v, inst)
    else if k == "oneOf" then v.Array? ==> Matching(v.items, inst, draft, other) == 1
    else if k == "anyOf" then v.Array? ==> Matching(v.items, inst, draft, other) >= 1
    else if k == "allOf" then v.Array? ==> Matching(v.items, inst, draft, other) == |v.items|
    else if k == "properties" then
      v.Object? && inst.Object? ==>
        forall p | p in v.entries && p in inst.entries :: Accepts(v.entries[p], inst.entries[p], draft, other)
    else if k == "items" then
      inst.Array? ==> forall i | 0 <= i < |inst.items| :: Accepts(v, inst.items[i], draft, other)
    else if k == "nullable" then true
    else other(k, v, inst)
  }

  predicate Typed(v: Value, inst: Value) {
    match v
    case String(t) => HasType(t, inst)
    case Array(ts) => exists i :: 0 <= i < |ts| && ts[i].String? && HasType(ts[i].s, inst)
    case _ => true
  }

  // How many of the schemas accept the instance.
  function Matching(schemas: seq<Value>, inst: Value, draft: Draft, other: Assertion): (n: nat)
    ensures n <= |schemas|
    decreases schemas, 0
  {
    if schemas == [] then 0
    else (if Accepts(schemas[0], inst, draft, other) then 1 else 0) + Matching(schemas[1..], inst, draft, other)
  }

  // ---------- the fragment on which meaning survives ----------

  predicate KnownType(t: string) {
    t in {"null", "boolean", "number", "integer", "string", "array", "object"}
  }

  // Some value has both types.
  predicate Overlap(a: string, b: string) {
    (a == b && KnownType(a)) || (a == "integer" && b == "number") || (a == "number" && b == "integer")
  }

  predicate PairwiseDisjoint(types: seq<string>) {
    forall i, j :: 0 <= i < j < |types| ==> !Overlap(types[i], types[j])
  }

  // A value the rewrite walks over without changing it.
  predicate Inert(v: Value) {
    match v
    case Object(_) => false
    case Array(items) => forall i | 0 <= i < |items| :: Inert(items[i])
    case _ => true
  }

  predicate IsTypeList(v: Value) {
    v.Array? && forall i | 0 <= i < |v.items| :: v.items[i].String?
  }

  function NullCount(variants: seq<Value>): nat {
    if variants == [] then 0 else (if IsNullSchema(variants[0]) then 1 else 0) + NullCount(variants[1..])
  }

  // The keywords of `m` other than `key` accept null.
  predicate OthersAcceptNull(m: Entries, key: string, other: Assertion) {
    forall k | k in m && k != key :: Keyword(k, m[k], Null, JsonSchema, other)
  }

  // A list of types names something besides null, names it once, and stands without a union.
  predicate TypeListKept(m: Entries, other: Assertion) {
    HasTypeList(m) ==>
      && "oneOf" !in m && "anyOf" !in m
      && |Collected(m["type"].items)| >= 1
      && PairwiseDisjoint(Collected(m["type"].items))
      && (String("null") in m["type"].items ==> OthersAcceptNull(m, "type", other))
  }

  // A union with a null variant keeps another one; a lone one is flat and brings only new keywords.
  predicate UnionKept(m: Entries, key: string, other: Assertion) {
    key in m && m[key].Array? && HasNull(m[key].items) ==>
      var rest := NonNull(m[key].items);
      && OthersAcceptNull(m, key, other)
      && |rest| >= 1
      && (|rest| == 1 ==>
            && rest[0].Object?
            && !HasTypeList(rest[0].entries) && "oneOf" !in rest[0].entries && "anyOf" !in rest[0].entries
            && rest[0].entries.Keys * (m.Keys - {key}) == {})
      && (key == "oneOf" ==>
            && NullCount(m[key].items) == 1
            && forall i | 0 <= i < |m[key].items| ::
                 !IsNullSchema(m[key].items[i]) ==> !Accepts(m[key].items[i], Null, JsonSchema, other))
  }

  predicate NullInOneUnionOnly(m: Entries) {
    !("oneOf" in m && "anyOf" in m && m["oneOf"].Array? && HasNull(m["oneOf"].items)
      && m["anyOf"].Array? && HasNull(m["anyOf"].items))
  }

  predicate Good(v: Value, other: Assertion)
    decreases v, 0
  {
    && v.Object?
    && "nullable" !in v.entries
    && (forall k | k in v.entries :: (k == "type" && IsTypeList(v.entries[k])) || GoodEntry(k, v.entries[k], other))
    && TypeListKept(v.entries, other)
    && UnionKept(v.entries, "oneOf", other) && UnionKept(v.entries, "anyOf", other)
    && NullInOneUnionOnly(v.entries)
  }

  predicate GoodEntry(k: string, v: Value, other: Assertion)
    decreases v, 1
  {
    if k == "type" then v.String?
    else if k in {"oneOf", "anyOf", "allOf"} then v.Array? && forall i | 0 <= i < |v.items| :: Good(v.items[i], other)
    else if k == "properties" then
      && v.Object? && "oneOf" !in v.entries && "anyOf" !in v.entries
      && forall p | p in v.entries :: Good(v.entries[p], other)
    else if k == "items" then Good(v, other)
    else if k == "nullable" then v == Bool(true)
    else Inert(v)
  }

  // ---------- each rewriting step keeps the meaning of the object ----------

  predicate AllKeywords(m: Entries, inst: Value, other: Assertion) {
    forall k | k in m :: Keyword(k, m[k], inst, JsonSchema, other)
  }

  // One object under the 3.0 reading of its own `nullable`, its subschemas still under the 3.1 reading.
  predicate AcceptsTop(m: Entries, inst: Value, other: Assertion) {
    (inst.Null? && Nullable(m)) || AllKeywords(m, inst, other)
  }

  lemma SplitKeyword(m: Entries, key: string, inst: Value, other: Assertion)
    requires key in m
    ensures AllKeywords(m, inst, other)
            <==> Keyword(key, m[key], inst, JsonSchema, other) && AllKeywords(m - {key}, inst, other)
  {
    assert forall k | k in m && k != key :: k in m - {key};
  }

  lemma AddKeyword(m: Entries, key: string, v: Value, inst: Value, other: Assertion)
    requires key !in m
    ensures AllKeywords(m[key := v], inst, other)
            <==> Keyword(key, v, inst, JsonSchema, other) && AllKeywords(m, inst, other)
  {
    SplitKeyword(m[key := v], key, inst, other);
    assert m[key := v] - {key} == m;
  }

  lemma MergeKeywords(a: Entries, b: Entries, inst: Value, other: Assertion)
    requires a.Keys * b.Keys == {}
    ensures AllKeywords(a + b, inst, other) <==> AllKeywords(a, inst, other) && AllKeywords(b, inst, other)
  {
    forall k | k in a ensures k in a + b && (a + b)[k] == a[k] {
      assert k !in a.Keys * b.Keys;
    }
    assert forall k | k in b :: k in a + b && (a + b)[k] == b[k];
  }

  lemma NullableAssertsNothing(m: Entries, inst: Value, other: Assertion)
    ensures AllKeywords(m["nullable" := Bool(true)], inst, other) <==> AllKeywords(m, inst, other)
  {
    var t := m["nullable" := Bool(true)];
    assert forall k | k in m :: k in t;
  }

  lemma NullSchemaAcceptsNull(inst: Value, draft: Draft, other: Assertion)
    ensures Accepts(NULL_SCHEMA, inst, draft, other) <==> inst.Null?
  {
    var m := NULL_SCHEMA.entries;
    assert "type" in m && m["type"] == String("null");
    assert Accepts(NULL_SCHEMA, inst, draft, other) <==> Keyword("type", m["type"], inst, draft, other);
  }

  lemma TypeSchemaAccepts(t: string, inst: Value, draft: Draft, other: Assertion)
    ensures Accepts(TypeSchema(t), inst, draft, other) <==> HasType(t, inst)
  {
    var m := TypeSchema(t).entries;
    assert "type" in m && m["type"] == String(t);
    assert Accepts(TypeSchema(t), inst, draft, other) <==> Keyword("type", m["type"], inst, draft, other);
  }

  predicate SomeType(types: seq<string>, inst: Value) {
    exists i :: 0 <= i < |types| && HasType(types[i], inst)
  }

  lemma SomeTypeStep(types: seq<string>, inst: Value)
    requires types != []
    ensures SomeType(types, inst) <==> HasType(types[0], inst) || SomeType(types[1..], inst)
  {
    if SomeType(types[1..], inst) {
      var i :| 0 <= i < |types[1..]| && HasType(types[1..][i], inst);
      assert HasType(types[i+1], inst);
    }
    if SomeType(types, inst) && !HasType(types[0], inst) {
      var i :| 0 <= i < |types| && HasType(types[i], inst);
      assert types[1..][i-1] == types[i];
    }
  }

  lemma {:induction false} GeneratedUnionMatches(types: seq<string>, inst: Value, other: Assertion)
    requires PairwiseDisjoint(types)
    ensures Matching(TypeSchemas(types), inst, JsonSchema, other) == if SomeType(types, inst) then 1 else 0
  {
    if types != [] {
      assert TypeSchemas(types)[1..] == TypeSchemas(types[1..]);
      GeneratedUnionMatches(types[1..], inst, other);
      TypeSchemaAccepts(types[0], inst, JsonSchema, other);
      SomeTypeStep(types, inst);
      if SomeType(types[1..], inst) {
        var i :| 0 <= i < |types[1..]| && HasType(types[1..][i], inst);
        assert !Overlap(types[0], types[i+1]);
      }
    }
  }

  lemma TypeListMatches(list: seq<Value>, inst: Value)
    requires IsTypeList(Array(list))
    ensures Typed(Array(list), inst) <==> SomeType(Collected(list), inst) || (inst.Null? && String("null") in list)
  {
    if Typed(Array(list), inst) {
      var i :| 0 <= i < |list| && list[i].String? && HasType(list[i].s, inst);
      CollectedMembers(list, list[i].s);
    }
    if SomeType(Collected(list), inst) {
      var i :| 0 <= i < |Collected(list)| && HasType(Collected(list)[i], inst);
      CollectedMembers(list, Collected(list)[i]);
    }
  }

  lemma TypeStepKeepsMeaning(m: Entries, inst: Value, other: Assertion)
    requires HasTypeList(m) && IsTypeList(m["type"]) && "nullable" !in m && TypeListKept(m, other)
    ensures AcceptsTop(TypeStep(m), inst, other) <==> AcceptsTop(m, inst, other)
  {
    var list := m["type"].items;
    var named := Collected(list);
    var rest := m - {"type"};
    TypeListMatches(list, inst);
    SplitKeyword(m, "type", inst, other);
    var typed := if |named| == 1 then m["type" := String(named[0])] else rest["oneOf" := Array(TypeSchemas(named))];
    assert AllKeywords(typed, inst, other) <==> SomeType(named, inst) && AllKeywords(rest, inst, other) by {
      if |named| == 1 {
        assert typed == rest["type" := String(named[0])];
        AddKeyword(rest, "type", String(named[0]), inst, other);
        assert SomeType(named, inst) <==> HasType(named[0], inst);
      } else {
        AddKeyword(rest, "oneOf", Array(TypeSchemas(named)), inst, other);
        GeneratedUnionMatches(named, inst, other);
      }
    }
    NullableAssertsNothing(typed, inst, other);
    if inst.Null? && String("null") in list {
      assert AllKeywords(rest, inst, other);
    }
  }

  lemma {:induction false} NonNullMatching(variants: seq<Value>, inst: Value, other: Assertion)
    ensures Matching(variants, inst, JsonSchema, other)
         == Matching(NonNull(variants), inst, JsonSchema, other) + if inst.Null? then NullCount(variants) else 0
  {
    if variants != [] {
      NonNullMatching(variants[1..], inst, other);
      if IsNullSchema(variants[0]) {
        NullSchemaAcceptsNull(inst, JsonSchema, other);
        assert NonNull(variants) == NonNull(variants[1..]);
      } else {
        assert NonNull(variants)[1..] == NonNull(variants[1..]);
      }
    }
  }

  lemma {:induction false} NoneMatching(variants: seq<Value>, inst: Value, other: Assertion)
    requires forall i | 0 <= i < |variants| :: !Accepts(variants[i], inst, JsonSchema, other)
    ensures Matching(variants, inst, JsonSchema, other) == 0
  {
    if variants != [] {
      NoneMatching(variants[1..], inst, other);
    }
  }

  lemma {:induction false} HasNullCount(variants: seq<Value>)
    ensures HasNull(variants) <==> NullCount(variants) >= 1
  {
    if variants != [] {
      HasNullCount(variants[1..]);
      if HasNull(variants[1..]) {
        var i :| 0 <= i < |variants[1..]| && IsNullSchema(variants[1..][i]);
        assert IsNullSchema(variants[i+1]);
      }
      if HasNull(variants) && !IsNullSchema(variants[0]) {
        var i :| 0 <= i < |variants| && IsNullSchema(variants[i]);
        assert variants[1..][i-1] == variants[i];
      }
    }
  }

  // Null is accepted by a kept union.
  lemma KeptUnionAcceptsNull(m: Entries, key: string, other: Assertion)
    requires key == "oneOf" || key == "anyOf"
    requires key in m && m[key].Array? && HasNull(m[key].items) && UnionKept(m, key, other)
    ensures AcceptsTop(m, Null, other)
  {
    var variants := m[key].items;
    NonNullMatching(variants, Null, other);
    HasNullCount(variants);
    if key == "oneOf" {
      var rest := NonNull(variants);
      forall i | 0 <= i < |rest| ensures !Accepts(rest[i], Null, JsonSchema, other) {
        NonNullMembers(variants, rest[i]);
      }
      NoneMatching(rest, Null, other);
    }
    assert Keyword(key, m[key], Null, JsonSchema, other);
  }

  lemma UnionStepKeepsMeaning(m: Entries, key: string, inst: Value, other: Assertion)
    requires key == "oneOf" || key == "anyOf"
    requires key in m && m[key].Array? && HasNull(m[key].items) && UnionKept(m, key, other)
    requires "nullable" in m ==> Nullable(m)
    ensures AcceptsTop(UnionStep(m, key), inst, other) <==> AcceptsTop(m, inst, other)
  {
    var rest := NonNull(m[key].items);
    var others := m - {key};
    assert Nullable(UnionStep(m, key));
    if inst.Null? {
      KeptUnionAcceptsNull(m, key, other);
    } else {
      NonNullMatching(m[key].items, inst, other);
      SplitKeyword(m, key, inst, other);
      if |rest| == 1 {
        var inner := rest[0].entries;
        assert Matching(rest, inst, JsonSchema, other)
            == if Accepts(rest[0], inst, JsonSchema, other) then 1 else 0 by {
          assert rest[1..] == [];
        }
        MergeKeywords(others, inner, inst, other);
        NullableAssertsNothing(others + inner, inst, other);
      } else {
        AddKeyword(others, key, Array(rest), inst, other);
        NullableAssertsNothing(others[key := Array(rest)], inst, other);
      }
    }
  }

  // ---------- and visiting the subschemas keeps it too ----------

  // After an object's own rewriting every entry is in the fragment, and `type` is a single type.
  ghost predicate GoodEntries(m: Entries, other: Assertion) {
    forall k | k in m :: GoodEntry(k, m[k], other)
  }

  lemma GoodTypeSchema(t: string, other: Assertion)
    ensures Good(TypeSchema(t), other)
  {
    assert TypeSchema(t).entries["type"] == String(t);
  }

  lemma TypeStepGood(m: Entries, other: Assertion)
    requires Good(Object(m), other)
    ensures GoodEntries(TypeStep(m), other)
  {
    if HasTypeList(m) && |Collected(m["type"].items)| >= 2 {
      var named := Collected(m["type"].items);
      forall i | 0 <= i < |named| ensures Good(TypeSchemas(named)[i], other) {
        GoodTypeSchema(named[i], other);
      }
      assert GoodEntry("oneOf", Array(TypeSchemas(named)), other);
    }
  }

  lemma UnionStepGood(m: Entries, key: string, other: Assertion)
    requires key == "oneOf" || key == "anyOf"
    requires GoodEntries(m, other) && UnionKept(m, key, other)
    ensures GoodEntries(UnionStep(m, key), other)
  {
    if key in m && m[key].Array? && HasNull(m[key].items) {
      var variants := m[key].items;
      var rest := NonNull(variants);
      forall i | 0 <= i < |rest| ensures Good(rest[i], other) {
        NonNullMembers(variants, rest[i]);
        assert GoodEntry(key, m[key], other);
      }
      if |rest| >= 2 {
        assert GoodEntry(key, Array(rest), other);
      } else {
        assert Good(rest[0], other);
      }
    }
  }

  // The union under `anyOf` is still kept after the step for `oneOf`.
  lemma AnyOfStillKept(m: Entries, other: Assertion)
    requires UnionKept(m, "oneOf", other) && UnionKept(m, "anyOf", other) && NullInOneUnionOnly(m)
    requires "oneOf" in m ==> m["oneOf"].Array?
    requires "anyOf" in m ==> m["anyOf"].Array?
    ensures UnionKept(UnionStep(m, "oneOf"), "anyOf", other)
  {
    if "oneOf" in m && HasNull(m["oneOf"].items) {
      var t := UnionStep(m, "oneOf");
      assert "anyOf" in t <==> "anyOf" in m;
      assert "anyOf" in t ==> t["anyOf"] == m["anyOf"];
    }
  }

  // A generated `oneOf` has no null variant, so the union steps leave a split list alone.
  lemma SplitListIsDone(m: Entries, other: Assertion)
    requires Good(Object(m), other) && HasTypeList(m)
    ensures Rewrite(m) == TypeStep(m)
  {
    if |Collected(m["type"].items)| >= 2 {
      GeneratedHasNoNull(Collected(m["type"].items), m["type"].items);
    }
    assert UnionStep(TypeStep(m), "oneOf") == TypeStep(m);
  }

  lemma UnionsKeepMeaning(m: Entries, inst: Value, other: Assertion)
    requires Good(Object(m), other) && !HasTypeList(m)
    ensures GoodEntries(Rewrite(m), other)
    ensures AcceptsTop(Rewrite(m), inst, other) <==> AcceptsTop(m, inst, other)
  {
    var b := UnionStep(m, "oneOf");
    UnionStepGood(m, "oneOf", other);
    AnyOfStillKept(m, other);
    UnionStepGood(b, "anyOf", other);
    if "oneOf" in m && HasNull(m["oneOf"].items) {
      UnionStepKeepsMeaning(m, "oneOf", inst, other);
    }
    if "anyOf" in b && HasNull(b["anyOf"].items) {
      UnionStepKeepsMeaning(b, "anyOf", inst, other);
    }
  }

  lemma RewriteKeepsMeaning(m: Entries, inst: Value, other: Assertion)
    requires Good(Object(m), other)
    ensures GoodEntries(Rewrite(m), other)
    ensures AcceptsTop(Rewrite(m), inst, other) <==> Accepts(Object(m), inst, JsonSchema, other)
  {
    if HasTypeList(m) {
      TypeStepGood(m, other);
      TypeStepKeepsMeaning(m, inst, other);
      SplitListIsDone(m, other);
    } else {
      UnionsKeepMeaning(m, inst, other);
    }
  }

  lemma {:induction false} InertIsFixed(v: Value)
    requires Inert(v)
    ensures Normalize(v) == v
  {
    if v.Array? {
      forall i | 0 <= i < |v.items| ensures Normalize(v.items[i]) == v.items[i] {
        InertIsFixed(v.items[i]);
      }
      assert Normalize(v).items == v.items;
    }
  }

  lemma {:induction false} SameMatching(a: seq<Value>, b: seq<Value>, inst: Value, other: Assertion)
    requires |a| == |b|
    requires forall i | 0 <= i < |a| ::
               Accepts(b[i], inst, OpenApi30, other) <==> Accepts(a[i], inst, JsonSchema, other)
    ensures Matching(b, inst, OpenApi30, other) == Matching(a, inst, JsonSchema, other)
  {
    if a != [] {
      SameMatching(a[1..], b[1..], inst, other);
    }
  }

  lemma PropertiesVisited(properties: Entries)
    requires !HasTypeList(properties) && "oneOf" !in properties && "anyOf" !in properties
    ensures Normalize(Object(properties)) == Object(map p | p in properties :: Normalize(properties[p]))
  {
    assert Rewrite(properties) == properties;
  }

  lemma KeywordPreserved(k: string, v: Value, inst: Value, other: Assertion)
    requires GoodEntry(k, v, other)
    ensures Keyword(k, Normalize(v), inst, OpenApi30, other) <==> Keyword(k, v, inst, JsonSchema, other)
    decreases Weight(v), 2
  {
    if k in {"oneOf", "anyOf", "allOf"} {
      var n := Normalize(v).items;
      forall i | 0 <= i < |v.items|
        ensures Accepts(n[i], inst, OpenApi30, other) <==> Accepts(v.items[i], inst, JsonSchema, other)
      {
        ItemLighter(v.items, i);
        MeaningPreserved(v.items[i], inst, other);
      }
      SameMatching(v.items, n, inst, other);
    } else if k == "properties" {
      forall p | p in v.entries ensures v.entries[p].Object? {
        assert Good(v.entries[p], other);
      }
      PropertiesVisited(v.entries);
      if inst.Object? {
        forall p | p in v.entries && p in inst.entries
          ensures Accepts(Normalize(v.entries[p]), inst.entries[p], OpenApi30, other)
                  <==> Accepts(v.entries[p], inst.entries[p], JsonSchema, other)
        {
          EntryLighter(v.entries, p);
          MeaningPreserved(v.entries[p], inst.entries[p], other);
        }
      }
    } else if k == "items" {
      if inst.Array? {
        forall i | 0 <= i < |inst.items|
          ensures Accepts(Normalize(v), inst.items[i], OpenApi30, other)
                  <==> Accepts(v, inst.items[i], JsonSchema, other)
        {
          MeaningPreserved(v, inst.items[i], other);
        }
      }
    } else {
      InertIsFixed(v);
    }
  }

  // Visiting the values of an object whose rewritten entries are in the fragment.
  lemma {:induction false} VisitKeepsMeaning(m: Entries, inst: Value, other: Assertion)
    requires GoodEntries(Rewrite(m), other)
    ensures Accepts(Normalize(Object(m)), inst, OpenApi30, other) <==> AcceptsTop(Rewrite(m), inst, other)
    decreases Weight(Object(m)), 0
  {
    var r, n := Rewrite(m), Normalize(Object(m)).entries;
    RewriteWithin(m);
    forall k | k in r
      ensures Keyword(k, n[k], inst, OpenApi30, other) <==> Keyword(k, r[k], inst, JsonSchema, other)
    {
      KeywordPreserved(k, r[k], inst, other);
    }
    if "nullable" in r {
      assert GoodEntry("nullable", r["nullable"], other);
    }
  }

  /** On the fragment the normalised schema accepts exactly the values the original did. */
  lemma {:induction false} MeaningPreserved(v: Value, inst: Value, other: Assertion)
    requires Good(v, other)
    ensures Accepts(Normalize(v), inst, OpenApi30, other) <==> Accepts(v, inst, JsonSchema, other)
    decreases Weight(v), 1
  {
    RewriteKeepsMeaning(v.entries, inst, other);
    VisitKeepsMeaning(v.entries, inst, other);
  }

  // ---------- for a bare list of types the condition is exact ----------

  function TypeNames(names: seq<string>): (r: seq<Value>)
    ensures |r| == |names|
  {
    seq(|names|, i requires 0 <= i < |names| => String(names[i]))
  }

  function TypeListSchema(names: seq<string>): Value {
    Object(map["type" := Array(TypeNames(names))])
  }

  // A value of a known type.
  function Sample(t: string): (v: Value)
    ensures KnownType(t) ==> HasType(t, v)
  {
    if t == "null" then Null
    else if t == "boolean" then Bool(true)
    else if t == "string" then String("")
    else if t == "array" then Array([])
    else if t == "object" then Object(map[])
    else Number(0.0)
  }

  lemma {:induction false} TwoMatches(types: seq<string>, i: nat, j: nat, inst: Value, other: Assertion)
    requires i < j < |types| && HasType(types[i], inst) && HasType(types[j], inst)
    ensures Matching(TypeSchemas(types), inst, JsonSchema, other) >= 2
  {
    assert TypeSchemas(types)[1..] == TypeSchemas(types[1..]);
    TypeSchemaAccepts(types[0], inst, JsonSchema, other);
    if i == 0 {
      OneMatch(types[1..], j - 1, inst, other);
    } else {
      TwoMatches(types[1..], i - 1, j - 1, inst, other);
    }
  }

  lemma {:induction false} OneMatch(types: seq<string>, i: nat, inst: Value, other: Assertion)
    requires i < |types| && HasType(types[i], inst)
    ensures Matching(TypeSchemas(types), inst, JsonSchema, other) >= 1
  {
    assert TypeSchemas(types)[1..] == TypeSchemas(types[1..]);
    TypeSchemaAccepts(types[0], inst, JsonSchema, other);
    if i > 0 {
      OneMatch(types[1..], i - 1, inst, other);
    }
  }

  lemma TypeListRewrite(names: seq<string>, other: Assertion)
    ensures GoodEntries(Rewrite(TypeListSchema(names).entries), other)
    ensures Rewrite(TypeListSchema(names).entries) == TypeStep(TypeListSchema(names).entries)
  {
    var m := TypeListSchema(names).entries;
    var list := m["type"].items;
    var named := Collected(list);
    if |named| >= 2 {
      GeneratedHasNoNull(named, list);
      forall i | 0 <= i < |named| ensures Good(TypeSchemas(named)[i], other) {
        GoodTypeSchema(named[i], other);
      }
      assert GoodEntry("oneOf", Array(TypeSchemas(named)), other);
    }
  }

  lemma TypeListMeans(names: seq<string>, inst: Value, other: Assertion)
    ensures Accepts(TypeListSchema(names), inst, JsonSchema, other)
            <==> SomeType(Collected(TypeNames(names)), inst) || (inst.Null? && String("null") in TypeNames(names))
  {
    var m := TypeListSchema(names).entries;
    TypeListMatches(TypeNames(names), inst);
    SplitKeyword(m, "type", inst, other);
    assert m - {"type"} == map[];
  }

  // Nothing but null was listed: the rewritten schema accepts everything.
  lemma EmptyListWitness(names: seq<string>, other: Assertion)
    requires |Collected(TypeNames(names))| == 0
    ensures Accepts(Normalize(TypeListSchema(names)), Bool(true), OpenApi30, other)
    ensures !Accepts(TypeListSchema(names), Bool(true), JsonSchema, other)
  {
    TypeListRewrite(names, other);
    VisitKeepsMeaning(TypeListSchema(names).entries, Bool(true), other);
    TypeListMeans(names, Bool(true), other);
  }

  // A value of two listed types is refused by the generated `oneOf`.
  lemma OverlapWitness(names: seq<string>, i: nat, j: nat, inst: Value, other: Assertion)
    requires var named := Collected(TypeNames(names));
             i < j < |named| && HasType(named[i], inst) && HasType(named[j], inst) && named[i] != "null"
    requires !inst.Null?
    ensures !Accepts(Normalize(TypeListSchema(names)), inst, OpenApi30, other)
    ensures Accepts(TypeListSchema(names), inst, JsonSchema, other)
  {
    var m, named := TypeListSchema(names).entries, Collected(TypeNames(names));
    assert m["type"] == Array(TypeNames(names));
    TypeListRewrite(names, other);
    TwoMatches(named, i, j, inst, other);
    VisitKeepsMeaning(m, inst, other);
    assert "oneOf" in Rewrite(m) && Rewrite(m)["oneOf"] == Array(TypeSchemas(named));
    TypeListMeans(names, inst, other);
  }

  // A value on which the two readings of a list of types differ, when the list is not kept.
  lemma TypeListWitness(names: seq<string>, other: Assertion) returns (inst: Value)
    requires |Collected(TypeNames(names))| == 0 || !PairwiseDisjoint(Collected(TypeNames(names)))
    ensures Accepts(Normalize(TypeListSchema(names)), inst, OpenApi30, other)
            != Accepts(TypeListSchema(names), inst, JsonSchema, other)
  {
    var named := Collected(TypeNames(names));
    if |named| == 0 {
      inst := Bool(true);
      EmptyListWitness(names, other);
    } else {
      var i, j :| 0 <= i < j < |named| && Overlap(named[i], named[j]);
      inst := if named[i] == named[j] then Sample(named[i]) else Number(0.0);
      CollectedMembers(TypeNames(names), named[i]);
      OverlapWitness(names, i, j, inst, other);
    }
  }

  /** A list of types keeps its meaning exactly when it names a type besides null and no two of the
      types it names have a value in common. */
  lemma TypeListKeptIff(names: seq<string>, other: Assertion)
    ensures (forall inst :: Accepts(Normalize(TypeListSchema(names)), inst, OpenApi30, other)
                            <==> Accepts(TypeListSchema(names), inst, JsonSchema, other))
            <==> (|Collected(TypeNames(names))| >= 1 && PairwiseDisjoint(Collected(TypeNames(names))))
  {
    var v := TypeListSchema(names);
    var named := Collected(TypeNames(names));
    if |named| >= 1 && PairwiseDisjoint(named) {
      assert v.entries["type"] == Array(TypeNames(names));
      assert Good(v, other);
      forall inst ensures Accepts(Normalize(v), inst, OpenApi30, other) <==> Accepts(v, inst, JsonSchema, other) {
        MeaningPreserved(v, inst, other);
      }
    } else {
      var inst := TypeListWitness(names, other);
    }
  }

  // ---------- for a bare union with a null variant the condition is exact too ----------

  function UnionSchema(key: string, variants: seq<Value>): Value {
    Object(map[key := Array(variants)])
  }

  // Every variant keeps its own meaning, and a lone one has no list of types and no union.
  ghost predicate VariantsKept(variants: seq<Value>, other: Assertion) {
    && (forall i | 0 <= i < |variants| :: Good(variants[i], other))
    && var rest := NonNull(variants);
       |rest| == 1 && rest[0].Object? ==>
         !HasTypeList(rest[0].entries) && "oneOf" !in rest[0].entries && "anyOf" !in rest[0].entries
  }

  // Null is counted once.
  predicate NullOnce(variants: seq<Value>, other: Assertion) {
    && NullCount(variants) == 1
    && forall i | 0 <= i < |variants| ::
         !IsNullSchema(variants[i]) ==> !Accepts(variants[i], Null, JsonSchema, other)
  }

  lemma UnionIsGood(key: string, variants: seq<Value>, other: Assertion)
    requires key in {"oneOf", "anyOf"} && HasNull(variants) && VariantsKept(variants, other)
    requires |NonNull(variants)| >= 1 && (key == "oneOf" ==> NullOnce(variants, other))
    ensures Good(UnionSchema(key, variants), other)
  {
    var m := UnionSchema(key, variants).entries;
    assert m[key] == Array(variants) && m.Keys == {key};
    NonNullMembers(variants, NonNull(variants)[0]);
    assert GoodEntry(key, m[key], other);
  }

  lemma {:induction false} NoneMatchIff(variants: seq<Value>, inst: Value, other: Assertion)
    ensures Matching(variants, inst, JsonSchema, other) == 0
            <==> forall i | 0 <= i < |variants| :: !Accepts(variants[i], inst, JsonSchema, other)
  {
    if variants != [] {
      NoneMatchIff(variants[1..], inst, other);
      assert forall i | 0 < i < |variants| :: variants[i] == variants[1..][i-1];
      assert forall i | 0 <= i < |variants[1..]| :: variants[1..][i] == variants[i+1];
    }
  }

  // A `oneOf` with a null variant accepts null exactly when null is counted once.
  lemma OneOfAcceptsNullIff(variants: seq<Value>, other: Assertion)
    requires HasNull(variants)
    ensures Matching(variants, Null, JsonSchema, other) == 1 <==> NullOnce(variants, other)
  {
    var rest := NonNull(variants);
    NonNullMatching(variants, Null, other);
    HasNullCount(variants);
    NoneMatchIff(rest, Null, other);
    forall v ensures v in rest <==> v in variants && !IsNullSchema(v) {
      NonNullMembers(variants, v);
    }
    if NullOnce(variants, other) {
      forall i | 0 <= i < |rest| ensures !Accepts(rest[i], Null, JsonSchema, other) {
        assert rest[i] in rest;
      }
    }
  }

  // The normalised union accepts null, whatever its variants.
  lemma NormalisedAcceptsNull(key: string, variants: seq<Value>, other: Assertion)
    requires key in {"oneOf", "anyOf"} && HasNull(variants)
    ensures Accepts(Normalize(UnionSchema(key, variants)), Null, OpenApi30, other)
  {
    var m := UnionSchema(key, variants).entries;
    var first := UnionStep(m, "oneOf");
    assert m[key] == Array(variants) && TypeStep(m) == m;
    RewriteWithin(m);
    assert "nullable" in Rewrite(m) && Rewrite(m)["nullable"] == Bool(true) by {
      if key == "oneOf" {
        assert Nullable(first);
        assert Nullable(UnionStep(first, "anyOf"));
      } else {
        assert first == m;
      }
    }
    assert Normalize(Bool(true)) == Bool(true);
  }

  // With nothing but null variants the normalised union accepts everything.
  lemma EmptyUnionWitness(key: string, variants: seq<Value>, other: Assertion)
    requires key in {"oneOf", "anyOf"} && HasNull(variants) && NonNull(variants) == []
    ensures Accepts(Normalize(UnionSchema(key, variants)), Bool(true), OpenApi30, other)
    ensures !Accepts(UnionSchema(key, variants), Bool(true), JsonSchema, other)
  {
    var m := UnionSchema(key, variants).entries;
    assert m[key] == Array(variants) && TypeStep(m) == m;
    assert Rewrite(m) == map["nullable" := Bool(true)];
    RewriteWithin(m);
    NonNullMatching(variants, Bool(true), other);
    assert !Keyword(key, m[key], Bool(true), JsonSchema, other);
  }

  /** A bare union with a null variant, whose variants keep their own meaning, keeps its meaning exactly
      when another variant is left and, for `oneOf`, null is accepted by one variant only. */
  lemma NullableUnionKeptIff(key: string, variants: seq<Value>, other: Assertion)
    requires key in {"oneOf", "anyOf"} && HasNull(variants) && VariantsKept(variants, other)
    ensures (forall inst :: Accepts(Normalize(UnionSchema(key, variants)), inst, OpenApi30, other)
                            <==> Accepts(UnionSchema(key, variants), inst, JsonSchema, other))
            <==> |NonNull(variants)| >= 1 && (key == "oneOf" ==> NullOnce(variants, other))
  {
    var v := UnionSchema(key, variants);
    assert v.entries[key] == Array(variants);
    if NonNull(variants) == [] {
      EmptyUnionWitness(key, variants, other);
    } else if key == "oneOf" && !NullOnce(variants, other) {
      NormalisedAcceptsNull(key, variants, other);
      OneOfAcceptsNullIff(variants, other);
      assert key in v.entries && !Keyword(key, v.entries[key], Null, JsonSchema, other);
      assert !Accepts(v, Null, JsonSchema, other);
    } else {
      UnionIsGood(key, variants, other);
      forall inst ensures Accepts(Normalize(v), inst, OpenApi30, other) <==> Accepts(v, inst, JsonSchema, other) {
        MeaningPreserved(v, inst, other);
      }
    }
  }
}
