/** JSON values as the API-client generator holds them: objects are finite maps without an order. */
module Json {

  datatype Value =
    | Null
    | Bool(b: bool)
    | Number(n: real)
    | String(s: string)
    | Array(items: seq<Value>)
    | Object(entries: map<string, Value>)

  type Entries = map<string, Value>

  // ---------- a size for recursion ----------

  ghost function Largest(s: set<nat>): (m: nat)
    ensures forall x :: x in s ==> x <= m
    ensures m == 0 || m in s
  {
    if s == {} then 0
    else
      var x :| x in s;
      var rest := Largest(s - {x});
      assert s == (s - {x}) + {x};
      if x < rest then rest else x
  }

  predicate HasTypeList(m: Entries) {
    "type" in m && m["type"].Array?
  }

  // Nesting depth; an object with a list of types counts double, for the variants it may become.
  ghost function Weight(v: Value): nat
    decreases v, 1
  {
    match v
    case Array(_) => 1 + Largest(ChildWeights(v))
    case Object(m) => 1 + Largest(ChildWeights(v)) + if HasTypeList(m) then 1 else 0
    case _ => 0
  }

  ghost function ChildWeights(v: Value): set<nat>
    decreases v, 0
  {
    match v
    case Array(items) => set i | 0 <= i < |items| :: Weight(items[i])
    case Object(m) => set k | k in m :: Weight(m[k])
    case _ => {}
  }

  lemma ItemLighter(items: seq<Value>, i: nat)
    requires i < |items|
    ensures Weight(items[i]) < Weight(Array(items))
  {
    assert Weight(items[i]) in ChildWeights(Array(items));
  }

  lemma EntryLighter(m: Entries, k: string)
    requires k in m
    ensures Weight(m[k]) < Weight(Object(m))
    ensures HasTypeList(m) ==> Weight(m[k]) + 1 < Weight(Object(m))
  {
    assert Weight(m[k]) in ChildWeights(Object(m));
  }

  lemma ArrayWithin(items: seq<Value>, bound: nat)
    requires forall i | 0 <= i < |items| :: Weight(items[i]) < bound
    requires bound > 0
    ensures Weight(Array(items)) <= bound
  {
    assert forall w | w in ChildWeights(Array(items)) :: w < bound;
  }
}
