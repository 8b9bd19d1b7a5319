/**
 The steps of the nullable rewrite key by key: what a list of types turns into, what is left of a union
 with a null variant, and what stays as it was.
 */
module NullableRules {
  import opened Json
  import opened NullableNormaliser

  /** The variants without the null schema, in their order. */
  lemma {:induction false} NonNullAre(before: seq<Value>, v: Value, after: seq<Value>)
    ensures NonNull(before + [v] + after)
         == NonNull(before) + (if v == Object(map["type" := String("null")]) then [] else [v]) + NonNull(after)
    ensures NonNull([]) == []
  {
    var all := before + [v] + after;
    if before == [] {
      assert all[0] == v && all[1..] == after;
    } else {
      var first := if IsNullSchema(before[0]) then [] else [before[0]];
      NonNullAre(before[1..], v, after);
      assert all[0] == before[0] && all[1..] == before[1..] + [v] + after;
      assert NonNull(all) == first + NonNull(before[1..] + [v] + after);
      assert NonNull(before) == first + NonNull(before[1..]);
    }
  }

  /** The names in a list of types, in their order, without "null" and without what is no string. */
  lemma {:induction false} NamesAre(before: seq<Value>, v: Value, after: seq<Value>)
    ensures Collected(before + [v] + after)
         == Collected(before) + (if v.String? && v.s != "null" then [v.s] else []) + Collected(after)
    ensures Collected([]) == []
  {
    var all := before + [v] + after;
    if before == [] {
      assert all[0] == v && all[1..] == after;
    } else {
      var first := if before[0].String? && before[0].s != "null" then [before[0].s] else [];
      NamesAre(before[1..], v, after);
      assert all[0] == before[0] && all[1..] == before[1..] + [v] + after;
      assert Collected(all) == first + Collected(before[1..] + [v] + after);
      assert Collected(before) == first + Collected(before[1..]);
    }
  }

  // `k` stands in `t` exactly as it does in `m`.
  predicate Same(m: Entries, t: Entries, k: string) {
    (k in t <==> k in m) && (k in m ==> t[k] == m[k])
  }

  /** A list of types: no name leaves no `type`, one name stays as the type, more become a `oneOf` of one
      schema each in place of any other; a listed null adds `nullable` unless it was there. Nothing else
      changes, and without a list nothing at all. */
  lemma TypeRule(m: Entries)
    ensures "type" !in m || !m["type"].Array? ==> TypeStep(m) == m
    ensures "type" in m && m["type"].Array? ==>
              var t, named := TypeStep(m), Collected(m["type"].items);
              && (|named| != 1 ==> "type" !in t)
              && (|named| == 1 ==> "type" in t && t["type"] == String(named[0]))
              && (|named| < 2 ==> Same(m, t, "oneOf"))
              && (|named| >= 2 ==>
                    && "oneOf" in t && t["oneOf"].Array? && |t["oneOf"].items| == |named|
                    && forall i | 0 <= i < |named| :: t["oneOf"].items[i] == Object(map["type" := String(named[i])]))
              && (if String("null") in m["type"].items && "nullable" !in m
                  then "nullable" in t && t["nullable"] == Bool(true) else Same(m, t, "nullable"))
              && (forall k | k !in {"type", "oneOf", "nullable"} :: Same(m, t, k))
  {
  }

  /** A union: gone when it is no array, untouched when it has no null variant; otherwise `nullable` is
      set, several other variants stay under the key, and a single one that is an object is spread over
      the object in place of the union, over whatever stood there. */
  lemma UnionRule(m: Entries, key: string)
    requires key in {"oneOf", "anyOf"}
    ensures key !in m ==> UnionStep(m, key) == m
    ensures key in m && !m[key].Array? ==> UnionStep(m, key) == m - {key}
    ensures key in m && m[key].Array? && Object(map["type" := String("null")]) !in m[key].items ==>
              UnionStep(m, key) == m
    ensures key in m && m[key].Array? && Object(map["type" := String("null")]) in m[key].items ==>
              var u, rest := UnionStep(m, key), NonNull(m[key].items);
              var spread := |rest| == 1 && rest[0].Object?;
              && "nullable" in u && u["nullable"] == Bool(true)
              && (|rest| >= 2 ==> key in u && u[key] == Array(rest))
              && (|rest| < 2 && !(spread && key in rest[0].entries) ==> key !in u)
              && (spread ==> forall k | k in rest[0].entries && k != "nullable" :: k in u && u[k] == rest[0].entries[k])
              && (forall k | k !in {key, "nullable"} && !(spread && k in rest[0].entries) :: Same(m, u, k))
  {
    if key in m && m[key].Array? {
      assert HasNull(m[key].items) <==> Object(map["type" := String("null")]) in m[key].items;
    }
  }

  /** Every value of the rewritten object, and every item of an array, is visited; what is neither stays. */
  lemma VisitRule(v: Value)
    ensures v.Object? ==>
              && Normalize(v).Object?
              && Normalize(v).entries.Keys == UnionStep(UnionStep(TypeStep(v.entries), "oneOf"), "anyOf").Keys
              && forall k | k in Normalize(v).entries ::
                   Normalize(v).entries[k]
                   == Normalize(UnionStep(UnionStep(TypeStep(v.entries), "oneOf"), "anyOf")[k])
    ensures v.Array? ==>
              && Normalize(v).Array? && |Normalize(v).items| == |v.items|
              && forall i | 0 <= i < |v.items| :: Normalize(v).items[i] == Normalize(v.items[i])
    ensures !v.Object? && !v.Array? ==> Normalize(v) == v
  {
  }
}
