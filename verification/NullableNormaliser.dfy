/**
 The first rewrite of the API-client generator: OpenAPI 3.1 lists of types and null variants become
 OpenAPI 3.0 `nullable`. The functions say what one pass does to an object; the method at the end is
 the pass itself.
 */
module NullableNormaliser {
  import opened Json

  const NULL_SCHEMA := Object(map["type" := String("null")])

  predicate IsNullSchema(v: Value) {
    v == NULL_SCHEMA
  }

  predicate HasNull(variants: seq<Value>) {
    exists i :: 0 <= i < |variants| && IsNullSchema(variants[i])
  }

  function NonNull(variants: seq<Value>): seq<Value> {
    if variants == [] then []
    else (if IsNullSchema(variants[0]) then [] else [variants[0]]) + NonNull(variants[1..])
  }

  // The named types of a list, without "null"; entries that are not strings are ignored.
  function Collected(types: seq<Value>): seq<string> {
    if types == [] then []
    else (if types[0].String? && types[0].s != "null" then [types[0].s] else []) + Collected(types[1..])
  }

  lemma {:induction false} NonNullMembers(variants: seq<Value>, v: Value)
    ensures v in NonNull(variants) <==> v in variants && !IsNullSchema(v)
  {
    if variants != [] {
      NonNullMembers(variants[1..], v);
    }
  }

  lemma {:induction false} CollectedMembers(types: seq<Value>, t: string)
    ensures t in Collected(types) <==> String(t) in types && t != "null"
  {
    if types != [] {
      CollectedMembers(types[1..], t);
    }
  }

  function TypeSchema(t: string): Value {
    Object(map["type" := String(t)])
  }

  function TypeSchemas(types: seq<string>): (r: seq<Value>)
    ensures |r| == |types|
  {
    seq(|types|, i requires 0 <= i < |types| => TypeSchema(types[i]))
  }

  // A union generated from a list of types has no null variant.
  lemma GeneratedHasNoNull(named: seq<string>, list: seq<Value>)
    requires named == Collected(list)
    ensures !HasNull(TypeSchemas(named))
  {
    forall i | 0 <= i < |named| ensures !IsNullSchema(TypeSchema(named[i])) {
      CollectedMembers(list, named[i]);
      assert TypeSchema(named[i]).entries["type"] == String(named[i]);
      assert NULL_SCHEMA.entries["type"] == String("null");
    }
  }

  // A `type` list becomes one type, a generated `oneOf`, or nothing.
  function TypeStep(m: Entries): Entries {
    if !HasTypeList(m) then m
    else
      var types := m["type"].items;
      var named := Collected(types);
      var typed :=
        if |named| == 0 then m - {"type"}
        else if |named| == 1 then m["type" := String(named[0])]
        else (m - {"type"})["oneOf" := Array(TypeSchemas(named))];
      if String("null") in types && "nullable" !in typed then typed["nullable" := Bool(true)] else typed
  }

  // What the union under `key` contributes when a single variant is left: that variant's entries.
  function Inlined(m: Entries, key: string): Entries {
    if key in m && m[key].Array? && HasNull(m[key].items) then
      var rest := NonNull(m[key].items);
      if |rest| == 1 && rest[0].Object? then rest[0].entries else map[]
    else map[]
  }

  // Null variants are dropped from the union under `key`; one left over is inlined.
  function UnionStep(m: Entries, key: string): Entries {
    if key !in m then m
    else if !m[key].Array? then m - {key}
    else if !HasNull(m[key].items) then m
    else
      var rest := NonNull(m[key].items);
      var kept := if |rest| >= 2 then (m - {key})[key := Array(rest)] else (m - {key}) + Inlined(m, key);
      kept["nullable" := Bool(true)]
  }

  // One object's own rewriting, before its values are visited.
  function Rewrite(m: Entries): Entries {
    UnionStep(UnionStep(TypeStep(m), "oneOf"), "anyOf")
  }

  // ---------- rewriting never nests deeper ----------

  ghost predicate Within(m: Entries, bound: nat) {
    forall k :: k in m ==> Weight(m[k]) <= bound
  }

  lemma TypeStepWithin(m: Entries)
    ensures Within(TypeStep(m), Weight(Object(m)) - 1)
  {
    forall k | k in m
      ensures Weight(m[k]) < Weight(Object(m)) && (HasTypeList(m) ==> Weight(m[k]) + 1 < Weight(Object(m)))
    {
      EntryLighter(m, k);
    }
    if HasTypeList(m) && |Collected(m["type"].items)| >= 2 {
      var schemas := TypeSchemas(Collected(m["type"].items));
      forall i | 0 <= i < |schemas| ensures Weight(schemas[i]) < 2 {
        TypeSchemaWeight(Collected(m["type"].items)[i]);
      }
      ArrayWithin(schemas, 2);
      assert Weight(m["type"]) >= 1;
    }
  }

  lemma TypeSchemaWeight(t: string)
    ensures Weight(TypeSchema(t)) == 1
  {
    var m := map["type" := String(t)];
    assert Weight(m["type"]) == 0;
  }

  lemma UnionStepWithin(m: Entries, key: string, bound: nat)
    requires Within(m, bound)
    ensures Within(UnionStep(m, key), bound)
  {
    if key in m && m[key].Array? && HasNull(m[key].items) {
      var variants := m[key].items;
      var rest := NonNull(variants);
      forall v | v in rest ensures Weight(v) < Weight(m[key]) {
        NonNullMembers(variants, v);
        var i :| 0 <= i < |variants| && variants[i] == v;
        ItemLighter(variants, i);
      }
      if |rest| >= 2 {
        assert forall i | 0 <= i < |rest| :: rest[i] in rest;
        ArrayWithin(rest, bound);
      } else if |rest| == 1 && rest[0].Object? {
        assert rest[0] in rest;
        forall k | k in rest[0].entries ensures Weight(rest[0].entries[k]) <= bound {
          EntryLighter(rest[0].entries, k);
        }
      }
    }
  }

  lemma RewriteWithin(m: Entries)
    ensures forall k :: k in Rewrite(m) ==> Weight(Rewrite(m)[k]) < Weight(Object(m))
  {
    TypeStepWithin(m);
    UnionStepWithin(TypeStep(m), "oneOf", Weight(Object(m)) - 1);
    UnionStepWithin(UnionStep(TypeStep(m), "oneOf"), "anyOf", Weight(Object(m)) - 1);
  }

  // ---------- one pass ----------

  ghost function Normalize(v: Value): Value
    decreases Weight(v)
  {
    match v
    case Array(items) =>
      Array(seq(|items|, i requires 0 <= i < |items| => ItemLighter(items, i); Normalize(items[i])))
    case Object(m) =>
      RewriteWithin(m);
      Object(map k | k in Rewrite(m) :: Normalize(Rewrite(m)[k]))
    case _ => v
  }

  /** The pass over an owned JSON tree. */
  method NormalizeNullableTypes(value: Value) returns (out: Value)
    ensures out == Normalize(value)
    decreases Weight(value), 1
  {
    match value {
      case Array(items) =>
        var done := NormalizeItems(items);
        assert done == Normalize(value).items;
        out := Array(done);
      case Object(original) =>
        var m := SplitTypeList(original);
        m := DropNullVariants(m, "oneOf");
        m := DropNullVariants(m, "anyOf");
        RewriteWithin(original);
        assert m == Rewrite(original);
        var done := NormalizeEntries(m, Weight(value));
        assert done == Normalize(value).entries;
        out := Object(done);
      case _ =>
        out := value;
    }
  }

  method NormalizeItems(items: seq<Value>) returns (done: seq<Value>)
    ensures |done| == |items| && forall j | 0 <= j < |items| :: done[j] == Normalize(items[j])
    decreases Weight(Array(items)), 0
  {
    done := [];
    for i := 0 to |items|
      invariant |done| == i
      invariant forall j | 0 <= j < i :: done[j] == Normalize(items[j])
    {
      ItemLighter(items, i);
      var item := NormalizeNullableTypes(items[i]);
      done := done + [item];
    }
  }

  method NormalizeEntries(m: Entries, ghost bound: nat) returns (done: Entries)
    requires forall k :: k in m ==> Weight(m[k]) < bound
    ensures done.Keys == m.Keys && forall k | k in m :: done[k] == Normalize(m[k])
    decreases bound, 0
  {
    done := map[];
    var rest := m.Keys;
    while rest != {}
      invariant rest <= m.Keys && done.Keys == m.Keys - rest
      invariant forall k | k in done :: done[k] == Normalize(m[k])
      decreases |rest|
    {
      var k :| k in rest;
      var v := NormalizeNullableTypes(m[k]);
      done := done[k := v];
      rest := rest - {k};
    }
  }

  // The names of a list, one element longer.
  lemma {:induction false} CollectedUpTo(types: seq<Value>, i: nat)
    requires i < |types|
    ensures Collected(types[..i+1])
         == Collected(types[..i]) + (if types[i].String? && types[i].s != "null" then [types[i].s] else [])
  {
    var longer, shorter := types[..i+1], types[..i];
    if i == 0 {
      assert longer[1..] == [] && shorter == [];
    } else {
      CollectedUpTo(types[1..], i - 1);
      assert longer[1..] == types[1..][..i] && shorter[1..] == types[1..][..i-1];
      assert longer[0] == shorter[0] && types[1..][i-1] == types[i];
    }
  }

  // Sort a list of types into its names and whether it lists "null".
  method CollectTypes(types: seq<Value>) returns (nullable: bool, collected: seq<string>)
    ensures nullable == (String("null") in types)
    ensures collected == Collected(types)
  {
    nullable, collected := false, [];
    for i := 0 to |types|
      invariant nullable == exists j :: 0 <= j < i && types[j] == String("null")
      invariant collected == Collected(types[..i])
    {
      CollectedUpTo(types, i);
      if types[i].String? {
        if types[i].s == "null" {
          nullable := true;
        } else {
          collected := collected + [types[i].s];
        }
      }
    }
    assert types[..|types|] == types;
  }

  method SplitTypeList(original: Entries) returns (m: Entries)
    ensures m == TypeStep(original)
  {
    m := original;
    if "type" in m && m["type"].Array? {
      var nullable, collected := CollectTypes(m["type"].items);
      if |collected| == 0 {
        m := m - {"type"};
      } else if |collected| == 1 {
        m := m["type" := String(collected[0])];
      } else {
        m := m - {"type"};
        m := m["oneOf" := Array(TypeSchemas(collected))];
      }
      if nullable && "nullable" !in m {
        m := m["nullable" := Bool(true)];
      }
    }
  }

  // Copy every entry of `inner` over `original`.
  method Inline(original: Entries, inner: Entries) returns (m: Entries)
    ensures m == original + inner
  {
    m := original;
    var rest := inner.Keys;
    while rest != {}
      invariant rest <= inner.Keys
      invariant m.Keys == original.Keys + (inner.Keys - rest)
      invariant forall k | k in m :: m[k] == if k in inner && k !in rest then inner[k] else original[k]
      decreases |rest|
    {
      var k :| k in rest;
      m := m[k := inner[k]];
      rest := rest - {k};
    }
  }

  method DropNullVariants(original: Entries, key: string) returns (m: Entries)
    ensures m == UnionStep(original, key)
  {
    m := original;
    if key in m {
      var removed := m[key];
      m := m - {key};
      if removed.Array? {
        var variants := removed.items;
        if HasNull(variants) {
          var nonNull := NonNull(variants);
          if |nonNull| == 1 {
            if nonNull[0].Object? {
              m := Inline(m, nonNull[0].entries);
            }
          } else if |nonNull| >= 2 {
            m := m[key := Array(nonNull)];
          }
          m := m["nullable" := Bool(true)];
        } else {
          m := m[key := Array(variants)];
          assert m == original;
        }
      }
    }
  }
}
