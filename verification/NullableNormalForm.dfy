/**
 What the nullable rewrite leaves behind: no list of types, no null variant, nothing for a second
 pass to do. A variant inlined from a union is not looked at again at its level, so this depends on
 what gets inlined; the condition is exact.
 */
module NullableNormalForm {
  import opened Json
  import opened NullableNormaliser

  predicate IsUnionKey(k: string) {
    k == "oneOf" || k == "anyOf"
  }

  // No list of types here and no null variant in a union.
  predicate LocallyNormal(m: Entries) {
    && !HasTypeList(m)
    && (forall k :: k in m && IsUnionKey(k) ==> m[k].Array? && !HasNull(m[k].items))
  }

  // The same at every depth.
  predicate Normal(v: Value) {
    match v
    case Array(items) => forall i | 0 <= i < |items| :: Normal(items[i])
    case Object(m) => LocallyNormal(m) && forall k | k in m :: Normal(m[k])
    case _ => true
  }

  predicate UnionsAreArrays(m: Entries) {
    forall k :: k in m && IsUnionKey(k) ==> m[k].Array?
  }

  // Every `oneOf` and `anyOf`, at any depth, is an array.
  predicate WellKeyed(v: Value) {
    match v
    case Array(items) => forall i | 0 <= i < |items| :: WellKeyed(items[i])
    case Object(m) => UnionsAreArrays(m) && forall k | k in m :: WellKeyed(m[k])
    case _ => true
  }

  ghost predicate EntriesWellKeyed(m: Entries) {
    UnionsAreArrays(m) && forall k | k in m :: WellKeyed(m[k])
  }

  // ---------- a normal document is a fixed point ----------

  /** A second pass changes nothing in a document in normal form. */
  lemma {:induction false} NormalIsFixed(v: Value)
    requires Normal(v)
    ensures Normalize(v) == v
    decreases Weight(v)
  {
    match v
    case Array(items) =>
      forall i | 0 <= i < |items| ensures Normalize(items[i]) == items[i] {
        ItemLighter(items, i);
        NormalIsFixed(items[i]);
      }
      assert Normalize(v).items == items;
    case Object(m) =>
      assert Rewrite(m) == m;
      forall k | k in m ensures Normalize(m[k]) == m[k] {
        EntryLighter(m, k);
        NormalIsFixed(m[k]);
      }
      assert Normalize(v).entries == m;
    case _ =>
  }

  // ---------- well-keyed documents stay so ----------

  lemma TypeStepWellKeyed(m: Entries)
    requires EntriesWellKeyed(m)
    ensures EntriesWellKeyed(TypeStep(m))
  {
    if HasTypeList(m) {
      var named := Collected(m["type"].items);
      forall i | 0 <= i < |named| ensures WellKeyed(TypeSchemas(named)[i]) {
        assert WellKeyed(TypeSchema(named[i]));
      }
      assert WellKeyed(Array(TypeSchemas(named)));
    }
  }

  lemma UnionStepWellKeyed(m: Entries, key: string)
    requires EntriesWellKeyed(m) && IsUnionKey(key)
    ensures EntriesWellKeyed(UnionStep(m, key))
  {
    if key in m && HasNull(m[key].items) {
      var rest := NonNull(m[key].items);
      forall i | 0 <= i < |rest| ensures WellKeyed(rest[i]) {
        NonNullMembers(m[key].items, rest[i]);
        assert WellKeyed(m[key]);
      }
      assert WellKeyed(Array(rest));
    }
  }

  lemma RewriteWellKeyed(m: Entries)
    requires WellKeyed(Object(m))
    ensures EntriesWellKeyed(TypeStep(m))
    ensures EntriesWellKeyed(UnionStep(TypeStep(m), "oneOf"))
    ensures EntriesWellKeyed(Rewrite(m))
  {
    TypeStepWellKeyed(m);
    UnionStepWellKeyed(TypeStep(m), "oneOf");
    UnionStepWellKeyed(UnionStep(TypeStep(m), "oneOf"), "anyOf");
  }

  // ---------- a schema becomes a null schema only if it was one ----------

  lemma UnionStepAddsNullable(m: Entries, key: string)
    requires UnionsAreArrays(m) && IsUnionKey(key)
    ensures "nullable" in m ==> "nullable" in UnionStep(m, key)
    ensures "nullable" !in UnionStep(m, key) ==> UnionStep(m, key) == m
  {
  }

  lemma TypeStepNeverMakesNull(m: Entries)
    requires HasTypeList(m) && "type" in TypeStep(m)
    ensures TypeStep(m)["type"] != String("null")
  {
    var named := Collected(m["type"].items);
    if |named| == 1 {
      CollectedMembers(m["type"].items, named[0]);
    }
  }

  lemma NullOnlyFromNull(v: Value)
    requires WellKeyed(v)
    ensures IsNullSchema(Normalize(v)) <==> IsNullSchema(v)
  {
    if IsNullSchema(v) {
      NormalIsFixed(v);
    } else if v.Object? && IsNullSchema(Normalize(v)) {
      var m := v.entries;
      var r := Rewrite(m);
      assert r.Keys == Normalize(v).entries.Keys == {"type"};
      assert Normalize(r["type"]) == String("null");
      RewriteWellKeyed(m);
      UnionStepAddsNullable(TypeStep(m), "oneOf");
      UnionStepAddsNullable(UnionStep(TypeStep(m), "oneOf"), "anyOf");
      assert r == TypeStep(m);
      if HasTypeList(m) {
        TypeStepNeverMakesNull(m);
      }
    }
  }

  lemma NullVariantsSurvive(items: seq<Value>)
    requires WellKeyed(Array(items))
    ensures HasNull(Normalize(Array(items)).items) <==> HasNull(items)
  {
    forall i | 0 <= i < |items| ensures IsNullSchema(Normalize(Array(items)).items[i]) <==> IsNullSchema(items[i]) {
      NullOnlyFromNull(items[i]);
    }
  }

  // ---------- exactly when one pass suffices ----------

  // The entries inlined from `oneOf`, and then from `anyOf`.
  function FirstInlined(m: Entries): Entries {
    Inlined(TypeStep(m), "oneOf")
  }

  function SecondInlined(m: Entries): Entries {
    Inlined(UnionStep(TypeStep(m), "oneOf"), "anyOf")
  }

  function NullUnder(m: Entries, key: string): bool {
    key in m && m[key].Array? && HasNull(m[key].items)
  }

  /** What is inlined brings in no list of types and no null variant that this pass has gone past. */
  predicate InlinesSettled(m: Entries) {
    && !HasTypeList(FirstInlined(m) + SecondInlined(m))
    && !NullUnder(FirstInlined(m) + SecondInlined(m), "oneOf")
    && !NullUnder(SecondInlined(m), "anyOf")
  }

  // The same for every object the pass visits.
  ghost predicate Settled(v: Value)
    decreases Weight(v)
  {
    match v
    case Array(items) => forall i | 0 <= i < |items| :: ItemLighter(items, i); Settled(items[i])
    case Object(m) =>
      RewriteWithin(m);
      InlinesSettled(m) && forall k | k in Rewrite(m) :: Settled(Rewrite(m)[k])
    case _ => true
  }

  lemma NoNullLeft(variants: seq<Value>)
    ensures !HasNull(NonNull(variants))
  {
    forall i | 0 <= i < |NonNull(variants)| ensures !IsNullSchema(NonNull(variants)[i]) {
      NonNullMembers(variants, NonNull(variants)[i]);
    }
  }

  lemma UnionStepLeaves(m: Entries, key: string)
    requires UnionsAreArrays(m) && IsUnionKey(key)
    ensures HasTypeList(UnionStep(m, key))
            <==> if "type" in Inlined(m, key) then HasTypeList(Inlined(m, key)) else HasTypeList(m)
    ensures NullUnder(UnionStep(m, key), key) <==> NullUnder(Inlined(m, key), key)
    ensures forall other | other != key && IsUnionKey(other) ::
              NullUnder(UnionStep(m, key), other)
              <==> if other in Inlined(m, key) then NullUnder(Inlined(m, key), other) else NullUnder(m, other)
  {
    if key in m {
      NoNullLeft(m[key].items);
    }
  }

  lemma RewriteIsLocallyNormalIff(m: Entries)
    requires WellKeyed(Object(m))
    ensures LocallyNormal(Rewrite(m)) <==> InlinesSettled(m)
  {
    RewriteWellKeyed(m);
    var a := TypeStep(m);
    var b := UnionStep(a, "oneOf");
    var r := UnionStep(b, "anyOf");
    assert !HasTypeList(a);
    UnionStepLeaves(a, "oneOf");
    UnionStepLeaves(b, "anyOf");
    assert UnionsAreArrays(r);
    assert LocallyNormal(r) <==> !HasTypeList(r) && !NullUnder(r, "oneOf") && !NullUnder(r, "anyOf");
  }

  lemma NormalizeKeepsShape(v: Value)
    ensures Normalize(v).Array? <==> v.Array?
    ensures v.Array? ==> |Normalize(v).items| == |v.items|
  {
  }

  lemma LocallyNormalSurvives(r: Entries, n: Entries)
    requires EntriesWellKeyed(r)
    requires n.Keys == r.Keys && forall k | k in r :: n[k] == Normalize(r[k])
    ensures LocallyNormal(n) <==> LocallyNormal(r)
  {
    forall k | k in r && IsUnionKey(k) ensures n[k].Array? && (HasNull(n[k].items) <==> HasNull(r[k].items)) {
      NullVariantsSurvive(r[k].items);
    }
    if "type" in r {
      NormalizeKeepsShape(r["type"]);
    }
  }

  /** For a document whose unions are arrays, one pass reaches normal form exactly when everything
      inlined on the way is settled. */
  lemma {:induction false} OnePassSufficesIff(v: Value)
    requires WellKeyed(v)
    ensures Normal(Normalize(v)) <==> Settled(v)
    decreases Weight(v)
  {
    match v
    case Array(items) =>
      forall i | 0 <= i < |items| ensures Normal(Normalize(items[i])) <==> Settled(items[i]) {
        ItemLighter(items, i);
        OnePassSufficesIff(items[i]);
      }
      var n := Normalize(v).items;
      assert forall i | 0 <= i < |items| :: n[i] == Normalize(items[i]);
    case Object(m) =>
      var r, n := Rewrite(m), Normalize(v).entries;
      RewriteWithin(m);
      RewriteWellKeyed(m);
      forall k | k in r ensures Normal(Normalize(r[k])) <==> Settled(r[k]) {
        OnePassSufficesIff(r[k]);
      }
      RewriteIsLocallyNormalIff(m);
      LocallyNormalSurvives(r, n);
      assert forall k | k in r :: n[k] == Normalize(r[k]);
    case _ =>
  }

  /** ... and then a second pass changes nothing. */
  lemma SecondPassIsIdentity(v: Value)
    requires WellKeyed(v) && Settled(v)
    ensures Normalize(Normalize(v)) == Normalize(v)
  {
    OnePassSufficesIff(v);
    NormalIsFixed(Normalize(v));
  }

  // ---------- a condition on the document as written ----------

  predicate Plain(m: Entries) {
    !HasTypeList(m) && "oneOf" !in m && "anyOf" !in m
  }

  // Every variant that would be inlined has no list of types and no union of its own.
  predicate InlinesPlainly(v: Value) {
    match v
    case Array(items) => forall i | 0 <= i < |items| :: InlinesPlainly(items[i])
    case Object(m) =>
      && Plain(Inlined(m, "oneOf")) && Plain(Inlined(m, "anyOf"))
      && forall k | k in m :: InlinesPlainly(m[k])
    case _ => true
  }

  lemma TypeSchemasPlainly(named: seq<string>)
    ensures InlinesPlainly(Array(TypeSchemas(named)))
  {
    forall i | 0 <= i < |named| ensures InlinesPlainly(TypeSchemas(named)[i]) {
      assert InlinesPlainly(TypeSchema(named[i]));
    }
  }

  lemma TypeStepPlainly(m: Entries)
    requires forall k | k in m :: InlinesPlainly(m[k])
    ensures forall k | k in TypeStep(m) :: InlinesPlainly(TypeStep(m)[k])
    ensures Inlined(TypeStep(m), "oneOf") in {map[], Inlined(m, "oneOf")}
    ensures Inlined(TypeStep(m), "anyOf") == Inlined(m, "anyOf")
  {
    var t := TypeStep(m);
    if HasTypeList(m) && |Collected(m["type"].items)| >= 2 {
      var named := Collected(m["type"].items);
      GeneratedHasNoNull(Collected(m["type"].items), m["type"].items);
      TypeSchemasPlainly(named);
      assert t["oneOf"] == Array(TypeSchemas(named));
    } else {
      assert "oneOf" in t <==> "oneOf" in m;
      assert "oneOf" in t ==> t["oneOf"] == m["oneOf"];
    }
    assert "anyOf" in t <==> "anyOf" in m;
    assert "anyOf" in t ==> t["anyOf"] == m["anyOf"];
  }

  lemma UnionStepPlainly(m: Entries, key: string)
    requires UnionsAreArrays(m) && IsUnionKey(key)
    requires forall k | k in m :: InlinesPlainly(m[k])
    ensures forall k | k in UnionStep(m, key) :: InlinesPlainly(UnionStep(m, key)[k])
  {
    if key in m && HasNull(m[key].items) {
      var rest := NonNull(m[key].items);
      forall i | 0 <= i < |rest| ensures InlinesPlainly(rest[i]) {
        NonNullMembers(m[key].items, rest[i]);
        assert InlinesPlainly(m[key]);
      }
      assert InlinesPlainly(Array(rest));
    }
  }

  // An inlined variant without an `anyOf` leaves that of its level as it was.
  lemma AnyOfUntouched(a: Entries)
    requires "anyOf" !in Inlined(a, "oneOf")
    ensures Inlined(UnionStep(a, "oneOf"), "anyOf") == Inlined(a, "anyOf")
  {
    var b := UnionStep(a, "oneOf");
    assert "anyOf" in b <==> "anyOf" in a;
    assert "anyOf" in b ==> b["anyOf"] == a["anyOf"];
  }

  lemma PlainInlinesSettle(m: Entries)
    requires WellKeyed(Object(m)) && InlinesPlainly(Object(m))
    ensures InlinesSettled(m)
    ensures forall k | k in Rewrite(m) :: InlinesPlainly(Rewrite(m)[k])
  {
    var a := TypeStep(m);
    var b := UnionStep(a, "oneOf");
    RewriteWellKeyed(m);
    TypeStepPlainly(m);
    UnionStepPlainly(a, "oneOf");
    UnionStepPlainly(b, "anyOf");
    AnyOfUntouched(a);
  }

  /** Plain inlining, checked on the document before the pass, is enough. */
  lemma {:induction false} PlainInliningSuffices(v: Value)
    requires WellKeyed(v) && InlinesPlainly(v)
    ensures Settled(v)
    decreases Weight(v)
  {
    match v
    case Array(items) =>
      forall i | 0 <= i < |items| ensures Settled(items[i]) {
        ItemLighter(items, i);
        PlainInliningSuffices(items[i]);
      }
    case Object(m) =>
      PlainInlinesSettle(m);
      RewriteWellKeyed(m);
      RewriteWithin(m);
      forall k | k in Rewrite(m) ensures Settled(Rewrite(m)[k]) {
        PlainInliningSuffices(Rewrite(m)[k]);
      }
    case _ =>
  }

  /** A list of types inlined from a union survives the pass: the condition cannot be dropped. */
  lemma InlinedTypeListSurvives() returns (v: Value)
    ensures WellKeyed(v) && !Normal(Normalize(v))
  {
    var list := Array([String("string"), String("null")]);
    var inner := map["type" := list];
    var variants := [NULL_SCHEMA, Object(inner)];
    var m := map["oneOf" := Array(variants)];
    v := Object(m);
    assert WellKeyed(list) && WellKeyed(NULL_SCHEMA) && WellKeyed(Object(inner)) && WellKeyed(Array(variants));
    assert inner["type"] != String("null") && !IsNullSchema(Object(inner));
    assert variants[1..] == [Object(inner)] && variants[1..][1..] == [];
    assert NonNull(variants[1..]) == [Object(inner)];
    assert IsNullSchema(variants[0]);
    assert FirstInlined(m) == inner;
    assert SecondInlined(m) == map[];
    assert HasTypeList(FirstInlined(m) + SecondInlined(m));
    OnePassSufficesIff(v);
  }
}
