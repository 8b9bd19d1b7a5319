/**
 The documents a pass of the nullable rewrite leaves alone are exactly those in normal form, so a
 second pass changes nothing exactly when the first was enough. The measure counts how many unions
 with a null variant are nested in each other; a pass never adds to it.
 */
module NullableFixedPoints {
  import opened Json
  import opened NullableNormaliser
  import opened NullableNormalForm

  ghost function NullDepth(v: Value): nat
    decreases v, 1
  {
    match v
    case Array(items) => Largest(ChildDepths(v)) + if HasNull(items) then 1 else 0
    case Object(_) => Largest(ChildDepths(v))
    case _ => 0
  }

  ghost function ChildDepths(v: Value): set<nat>
    decreases v, 0
  {
    match v
    case Array(items) => set i | 0 <= i < |items| :: NullDepth(items[i])
    case Object(m) => set k | k in m :: NullDepth(m[k])
    case _ => {}
  }

  lemma ItemShallower(items: seq<Value>, i: nat)
    requires i < |items|
    ensures NullDepth(items[i]) <= NullDepth(Array(items))
    ensures HasNull(items) ==> NullDepth(items[i]) < NullDepth(Array(items))
  {
    assert NullDepth(items[i]) in ChildDepths(Array(items));
  }

  lemma EntryShallower(m: Entries, k: string)
    requires k in m
    ensures NullDepth(m[k]) <= NullDepth(Object(m))
  {
    assert NullDepth(m[k]) in ChildDepths(Object(m));
  }

  lemma ArrayAtMost(items: seq<Value>, bound: nat)
    requires forall i | 0 <= i < |items| :: NullDepth(items[i]) <= bound
    ensures NullDepth(Array(items)) <= bound + if HasNull(items) then 1 else 0
  {
    assert forall d | d in ChildDepths(Array(items)) :: d <= bound;
  }

  lemma ObjectAtMost(m: Entries, bound: nat)
    requires forall k | k in m :: NullDepth(m[k]) <= bound
    ensures NullDepth(Object(m)) <= bound
  {
    assert forall d | d in ChildDepths(Object(m)) :: d <= bound;
  }

  ghost predicate AtMost(m: Entries, bound: nat) {
    forall k :: k in m ==> NullDepth(m[k]) <= bound
  }

  // ---------- one object's rewriting ----------

  lemma InlinedShallower(m: Entries, key: string, k: string)
    requires k in Inlined(m, key)
    ensures key in m && NullDepth(Inlined(m, key)[k]) < NullDepth(m[key])
  {
    var items := m[key].items;
    var lone := NonNull(items)[0];
    NonNullMembers(items, lone);
    var i :| 0 <= i < |items| && items[i] == lone;
    ItemShallower(items, i);
    EntryShallower(lone.entries, k);
  }

  lemma NonNullShallower(items: seq<Value>)
    requires HasNull(items)
    ensures NullDepth(Array(NonNull(items))) <= NullDepth(Array(items))
  {
    var rest := NonNull(items);
    NoNullLeft(items);
    forall i | 0 <= i < |rest| ensures NullDepth(rest[i]) <= NullDepth(Array(items)) {
      NonNullMembers(items, rest[i]);
      var j :| 0 <= j < |items| && items[j] == rest[i];
      ItemShallower(items, j);
    }
    ArrayAtMost(rest, NullDepth(Array(items)));
  }

  lemma TypeStepAtMost(m: Entries)
    ensures AtMost(TypeStep(m), NullDepth(Object(m)))
  {
    forall k | k in m ensures NullDepth(m[k]) <= NullDepth(Object(m)) {
      EntryShallower(m, k);
    }
    if HasTypeList(m) && |Collected(m["type"].items)| >= 2 {
      var named := Collected(m["type"].items);
      forall i | 0 <= i < |named| ensures NullDepth(TypeSchemas(named)[i]) <= 0 {
        ObjectAtMost(TypeSchema(named[i]).entries, 0);
      }
      GeneratedHasNoNull(named, m["type"].items);
      ArrayAtMost(TypeSchemas(named), 0);
    }
  }

  lemma UnionStepAtMost(m: Entries, key: string, bound: nat)
    requires AtMost(m, bound)
    ensures AtMost(UnionStep(m, key), bound)
  {
    if key in m && m[key].Array? && HasNull(m[key].items) {
      NonNullShallower(m[key].items);
      forall k | k in Inlined(m, key) ensures NullDepth(Inlined(m, key)[k]) <= bound {
        InlinedShallower(m, key, k);
      }
    }
  }

  lemma RewriteAtMost(m: Entries)
    ensures AtMost(Rewrite(m), NullDepth(Object(m)))
  {
    TypeStepAtMost(m);
    UnionStepAtMost(TypeStep(m), "oneOf", NullDepth(Object(m)));
    UnionStepAtMost(UnionStep(TypeStep(m), "oneOf"), "anyOf", NullDepth(Object(m)));
  }

  // ---------- a pass never adds to the depth ----------

  lemma SameNullShallower(items: seq<Value>, done: seq<Value>)
    requires |items| == |done| && (HasNull(items) <==> HasNull(done))
    requires forall i | 0 <= i < |items| :: NullDepth(done[i]) <= NullDepth(items[i])
    ensures NullDepth(Array(done)) <= NullDepth(Array(items))
  {
    var bound := Largest(ChildDepths(Array(items)));
    forall i | 0 <= i < |items| ensures NullDepth(done[i]) <= bound {
      assert NullDepth(items[i]) in ChildDepths(Array(items));
    }
    ArrayAtMost(done, bound);
  }

  lemma {:induction false} PassShallower(v: Value)
    requires WellKeyed(v)
    ensures NullDepth(Normalize(v)) <= NullDepth(v)
    decreases Weight(v)
  {
    match v
    case Array(items) =>
      var done := Normalize(v).items;
      forall i | 0 <= i < |items| ensures NullDepth(done[i]) <= NullDepth(items[i]) {
        ItemLighter(items, i);
        PassShallower(items[i]);
      }
      NullVariantsSurvive(items);
      SameNullShallower(items, done);
    case Object(m) =>
      var r, n := Rewrite(m), Normalize(v).entries;
      RewriteWithin(m);
      RewriteWellKeyed(m);
      RewriteAtMost(m);
      forall k | k in n ensures NullDepth(n[k]) <= NullDepth(v) {
        PassShallower(r[k]);
      }
      ObjectAtMost(n, NullDepth(v));
    case _ =>
  }

  // ---------- what a pass leaves alone has no union left to rewrite ----------

  lemma {:induction false} NonNullShorter(items: seq<Value>)
    ensures |NonNull(items)| <= |items| && (HasNull(items) ==> |NonNull(items)| < |items|)
  {
    if items != [] {
      NonNullShorter(items[1..]);
      if HasNull(items) && !IsNullSchema(items[0]) {
        var i :| 0 <= i < |items| && IsNullSchema(items[i]);
        assert items[1..][i-1] == items[i];
      }
    }
  }

  // Where a union with a null variant stood, a pass puts something else.
  lemma ShallowerDiffers(x: Value, union: Value)
    requires WellKeyed(x) && NullDepth(x) < NullDepth(union)
    ensures Normalize(x) != union
  {
    PassShallower(x);
  }

  lemma ShorterDiffers(items: seq<Value>)
    requires HasNull(items)
    ensures Normalize(Array(NonNull(items))) != Array(items)
  {
    NonNullShorter(items);
    NormalizeKeepsShape(Array(NonNull(items)));
  }

  // The entries of `m` come out of the pass as they were.
  ghost predicate LeftAlone(m: Entries) {
    Rewrite(m).Keys == m.Keys && forall k | k in m :: Normalize(Rewrite(m)[k]) == m[k]
  }

  lemma FixedIsLeftAlone(m: Entries)
    requires Normalize(Object(m)) == Object(m)
    ensures LeftAlone(m)
  {
    assert Normalize(Object(m)).entries == map k | k in Rewrite(m) :: Normalize(Rewrite(m)[k]);
  }

  // A union under `oneOf` that still has a null variant after the first step is the document's own.
  lemma OwnOneOf(m: Entries)
    requires NullUnder(TypeStep(m), "oneOf")
    ensures "oneOf" in m && TypeStep(m)["oneOf"] == m["oneOf"]
  {
    if HasTypeList(m) {
      GeneratedHasNoNull(Collected(m["type"].items), m["type"].items);
    }
  }

  // A union inlined from `oneOf` lies inside it, so nothing the pass puts back is as deep.
  lemma NoInlinedAnyOf(m: Entries)
    requires WellKeyed(Object(m)) && LeftAlone(m) && "anyOf" in Inlined(TypeStep(m), "oneOf")
    ensures !NullUnder(UnionStep(TypeStep(m), "oneOf"), "anyOf")
  {
    var a := TypeStep(m);
    var b := UnionStep(a, "oneOf");
    RewriteWellKeyed(m);
    if NullUnder(b, "anyOf") {
      OwnOneOf(m);
      InlinedShallower(a, "oneOf", "anyOf");
      if "oneOf" in Inlined(b, "anyOf") {
        InlinedShallower(b, "anyOf", "oneOf");
      } else {
        assert Rewrite(m)["oneOf"] == b["oneOf"];
        InlinedShallower(a, "oneOf", "oneOf");
      }
      ShallowerDiffers(Rewrite(m)["oneOf"], m["oneOf"]);
    }
  }

  // A union with a null variant never comes back under its own key.
  lemma UnionDoesNotReturn(m: Entries, key: string)
    requires EntriesWellKeyed(UnionStep(m, key)) && IsUnionKey(key)
    requires NullUnder(m, key) && key in UnionStep(m, key)
    ensures Normalize(UnionStep(m, key)[key]) != m[key]
  {
    if key in Inlined(m, key) {
      InlinedShallower(m, key, key);
      ShallowerDiffers(UnionStep(m, key)[key], m[key]);
    } else {
      ShorterDiffers(m[key].items);
    }
  }

  // A union under `anyOf` that was not inlined is the document's own.
  lemma OwnAnyOf(m: Entries)
    requires UnionsAreArrays(m) && "anyOf" !in Inlined(TypeStep(m), "oneOf")
    requires "anyOf" in UnionStep(TypeStep(m), "oneOf")
    ensures "anyOf" in m && UnionStep(TypeStep(m), "oneOf")["anyOf"] == m["anyOf"]
  {
    assert "anyOf" in TypeStep(m) && TypeStep(m)["anyOf"] == m["anyOf"];
  }

  lemma NoNullUnderAnyOf(m: Entries)
    requires WellKeyed(Object(m)) && LeftAlone(m)
    ensures !NullUnder(UnionStep(TypeStep(m), "oneOf"), "anyOf")
  {
    var b := UnionStep(TypeStep(m), "oneOf");
    if "anyOf" in Inlined(TypeStep(m), "oneOf") {
      NoInlinedAnyOf(m);
    } else if NullUnder(b, "anyOf") {
      RewriteWellKeyed(m);
      OwnAnyOf(m);
      UnionDoesNotReturn(b, "anyOf");
    }
  }

  lemma NoNullUnderOneOf(m: Entries)
    requires WellKeyed(Object(m)) && LeftAlone(m)
    ensures !NullUnder(TypeStep(m), "oneOf")
  {
    NoNullUnderAnyOf(m);
    if NullUnder(TypeStep(m), "oneOf") {
      RewriteWellKeyed(m);
      OwnOneOf(m);
      assert Rewrite(m) == UnionStep(TypeStep(m), "oneOf");
      UnionDoesNotReturn(TypeStep(m), "oneOf");
    }
  }

  lemma FixedIsLocallyNormal(m: Entries)
    requires WellKeyed(Object(m)) && Normalize(Object(m)) == Object(m)
    ensures LocallyNormal(m) && Rewrite(m) == m
  {
    FixedIsLeftAlone(m);
    NoNullUnderOneOf(m);
    NoNullUnderAnyOf(m);
    RewriteWellKeyed(m);
    var r := TypeStep(m);
    assert Rewrite(m) == r;
    if HasTypeList(m) {
      NormalizeKeepsShape(r["type"]);
    }
  }

  /** A document whose unions are arrays is left alone by a pass exactly when it is in normal form. */
  lemma {:induction false} FixedIffNormal(v: Value)
    requires WellKeyed(v)
    ensures Normalize(v) == v <==> Normal(v)
    decreases Weight(v)
  {
    if Normal(v) {
      NormalIsFixed(v);
    } else if Normalize(v) == v {
      match v
      case Array(items) =>
        forall i | 0 <= i < |items| ensures Normal(items[i]) {
          ItemLighter(items, i);
          assert Normalize(v).items[i] == Normalize(items[i]);
          FixedIffNormal(items[i]);
        }
      case Object(m) =>
        FixedIsLocallyNormal(m);
        forall k | k in m ensures Normal(m[k]) {
          EntryLighter(m, k);
          assert Normalize(v).entries[k] == Normalize(m[k]);
          FixedIffNormal(m[k]);
        }
      case _ =>
    }
  }

  lemma {:induction false} PassKeepsWellKeyed(v: Value)
    requires WellKeyed(v)
    ensures WellKeyed(Normalize(v))
    decreases Weight(v)
  {
    match v
    case Array(items) =>
      forall i | 0 <= i < |items| ensures WellKeyed(Normalize(v).items[i]) {
        ItemLighter(items, i);
        PassKeepsWellKeyed(items[i]);
      }
    case Object(m) =>
      var r, n := Rewrite(m), Normalize(v).entries;
      RewriteWithin(m);
      RewriteWellKeyed(m);
      forall k | k in n ensures WellKeyed(n[k]) && (IsUnionKey(k) ==> n[k].Array?) {
        PassKeepsWellKeyed(r[k]);
        NormalizeKeepsShape(r[k]);
      }
    case _ =>
  }

  /** A second pass changes nothing exactly when everything inlined by the first was settled. */
  lemma SecondPassIsIdentityIff(v: Value)
    requires WellKeyed(v)
    ensures Normalize(Normalize(v)) == Normalize(v) <==> Settled(v)
  {
    PassKeepsWellKeyed(v);
    FixedIffNormal(Normalize(v));
    OnePassSufficesIff(v);
  }
}
