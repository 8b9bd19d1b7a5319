/**
 The second rewrite of the API-client generator: of every `responses` object one response with
 content is kept, with one media type. `order` lists the keys of an object in the order the JSON
 library iterates over them.
 */
module ResponsePruning {
  import opened Wrappers
  import opened Json

  type KeyOrder = Entries -> seq<string>

  const PREFERRED := ["200", "201", "202", "204", "206", "207"]

  ghost predicate ListsKeys(keys: seq<string>, m: Entries) {
    forall k :: k in keys <==> k in m
  }

  ghost predicate Lists(order: KeyOrder) {
    forall m :: ListsKeys(order(m), m)
  }

  predicate HasContent(v: Value) {
    && v.Object? && "content" in v.entries
    && v.entries["content"].Object? && v.entries["content"].entries != map[]
  }

  function ContentOf(v: Value): Entries
    requires HasContent(v)
  {
    v.entries["content"].entries
  }

  // The first of `keys` whose response has content.
  function FirstWithContent(responses: Entries, keys: seq<string>): (r: Option<string>)
    ensures r.Some? ==> r.value in responses && HasContent(responses[r.value])
  {
    if keys == [] then None
    else if keys[0] in responses && HasContent(responses[keys[0]]) then Some(keys[0])
    else FirstWithContent(responses, keys[1..])
  }

  function KeptKey(responses: Entries, order: KeyOrder): Option<string> {
    FirstWithContent(responses, PREFERRED + order(responses))
  }

  // The media type that stays when there are several.
  ghost function KeptMediaType(content: Entries, order: KeyOrder): (media: string)
    requires Lists(order) && content != map[]
    ensures media in content
  {
    if "application/json" in content then "application/json"
    else FirstKey(content, order)
  }

  function FirstKey(m: Entries, order: KeyOrder): (k: string)
    requires Lists(order) && m != map[]
    ensures k in m
  {
    assert ListsKeys(order(m), m);
    assert order(m) != [] by {
      var any :| any in m;
      assert any in order(m);
    }
    assert order(m)[0] in order(m);
    order(m)[0]
  }

  ghost function PruneContent(response: Value, order: KeyOrder): Value
    requires Lists(order) && HasContent(response)
  {
    var content := ContentOf(response);
    if |content| > 1 then
      var media := KeptMediaType(content, order);
      Object(response.entries["content" := Object(map[media := content[media]])])
    else response
  }

  // One object's own pruning, before its values are visited.
  ghost function PruneStep(m: Entries, order: KeyOrder): Entries
    requires Lists(order)
  {
    if "responses" in m && m["responses"].Object? then
      var responses := m["responses"].entries;
      match KeptKey(responses, order)
      case Some(keep) => m["responses" := Object(map[keep := PruneContent(responses[keep], order)])]
      case None => m
    else m
  }

  lemma {:induction false} FirstWithContentIs(responses: Entries, keys: seq<string>)
    ensures match FirstWithContent(responses, keys)
            case Some(k) => exists i ::
              && 0 <= i < |keys| && keys[i] == k && k in responses && HasContent(responses[k])
              && forall j | 0 <= j < i :: !(keys[j] in responses && HasContent(responses[keys[j]]))
            case None => forall i | 0 <= i < |keys| :: !(keys[i] in responses && HasContent(responses[keys[i]]))
  {
    if keys != [] {
      FirstWithContentIs(responses, keys[1..]);
      if !(keys[0] in responses && HasContent(responses[keys[0]])) {
        match FirstWithContent(responses, keys[1..])
        case Some(k) =>
          var i :| 0 <= i < |keys[1..]| && keys[1..][i] == k && k in responses && HasContent(responses[k])
            && forall j | 0 <= j < i :: !(keys[1..][j] in responses && HasContent(responses[keys[1..][j]]));
          assert keys[i+1] == k;
          forall j | 0 <= j < i + 1 ensures !(keys[j] in responses && HasContent(responses[keys[j]])) {
            assert j > 0 ==> keys[j] == keys[1..][j-1];
          }
        case None =>
          forall j | 0 <= j < |keys| ensures !(keys[j] in responses && HasContent(responses[keys[j]])) {
            assert j > 0 ==> keys[j] == keys[1..][j-1];
          }
      }
    }
  }

  // ---------- pruning never nests deeper ----------

  lemma SmallerObject(a: Entries, b: Entries)
    requires forall k | k in a :: k in b && Weight(a[k]) <= Weight(b[k])
    requires HasTypeList(a) ==> HasTypeList(b)
    ensures Weight(Object(a)) <= Weight(Object(b))
  {
    var largest := Largest(ChildWeights(Object(a)));
    if ChildWeights(Object(a)) != {} && largest != 0 {
      assert largest in ChildWeights(Object(a));
      var k :| k in a && Weight(a[k]) == largest;
      assert Weight(b[k]) in ChildWeights(Object(b));
    }
  }

  lemma PruneContentLighter(response: Value, order: KeyOrder)
    requires Lists(order) && HasContent(response)
    ensures Weight(PruneContent(response, order)) <= Weight(response)
  {
    var content := ContentOf(response);
    if PruneContent(response, order) != response {
      var media := KeptMediaType(content, order);
      SmallerObject(map[media := content[media]], content);
      SmallerObject(PruneContent(response, order).entries, response.entries);
    }
  }

  lemma PruneStepWithin(m: Entries, order: KeyOrder)
    requires Lists(order)
    ensures forall k | k in PruneStep(m, order) :: Weight(PruneStep(m, order)[k]) < Weight(Object(m))
  {
    var p := PruneStep(m, order);
    if p != m {
      var responses := m["responses"].entries;
      var keep := KeptKey(responses, order).value;
      PruneContentLighter(responses[keep], order);
      SmallerObject(map[keep := PruneContent(responses[keep], order)], responses);
    }
    forall k | k in p ensures Weight(p[k]) < Weight(Object(m)) {
      EntryLighter(m, k);
    }
  }

  // ---------- one pass ----------

  ghost function Prune(v: Value, order: KeyOrder): Value
    requires Lists(order)
    decreases Weight(v)
  {
    match v
    case Array(items) =>
      Array(seq(|items|, i requires 0 <= i < |items| => ItemLighter(items, i); Prune(items[i], order)))
    case Object(m) =>
      PruneStepWithin(m, order);
      Object(map k | k in PruneStep(m, order) :: Prune(PruneStep(m, order)[k], order))
    case _ => v
  }

  /** The pass over an owned JSON tree. */
  method NormalizeResponseContent(value: Value, order: KeyOrder) returns (out: Value)
    requires Lists(order)
    ensures out == Prune(value, order)
    decreases Weight(value), 1
  {
    match value {
      case Array(items) =>
        var done := NormalizeItems(items, order);
        assert done == Prune(value, order).items;
        out := Array(done);
      case Object(original) =>
        var m := KeepOneResponse(original, order);
        PruneStepWithin(original, order);
        assert m == PruneStep(original, order);
        var done := NormalizeEntries(m, order, Weight(value));
        assert done == Prune(value, order).entries;
        out := Object(done);
      case _ =>
        out := value;
    }
  }

  method NormalizeItems(items: seq<Value>, order: KeyOrder) returns (done: seq<Value>)
    requires Lists(order)
    ensures |done| == |items| && forall j | 0 <= j < |items| :: done[j] == Prune(items[j], order)
    decreases Weight(Array(items)), 0
  {
    done := [];
    for i := 0 to |items|
      invariant |done| == i
      invariant forall j | 0 <= j < i :: done[j] == Prune(items[j], order)
    {
      ItemLighter(items, i);
      var item := NormalizeResponseContent(items[i], order);
      done := done + [item];
    }
  }

  method NormalizeEntries(m: Entries, order: KeyOrder, ghost bound: nat) returns (done: Entries)
    requires Lists(order)
    requires forall k :: k in m ==> Weight(m[k]) < bound
    ensures done.Keys == m.Keys && forall k | k in m :: done[k] == Prune(m[k], order)
    decreases bound, 0
  {
    done := map[];
    var rest := m.Keys;
    while rest != {}
      invariant rest <= m.Keys && done.Keys == m.Keys - rest
      invariant forall k | k in done :: done[k] == Prune(m[k], order)
      decreases |rest|
    {
      var k :| k in rest;
      var v := NormalizeResponseContent(m[k], order);
      done := done[k := v];
      rest := rest - {k};
    }
  }

  // Scan `keys` in turn for a response with content.
  method Scan(responses: Entries, keys: seq<string>) returns (keep: Option<string>)
    ensures keep == FirstWithContent(responses, keys)
  {
    for i := 0 to |keys|
      invariant FirstWithContent(responses, keys) == FirstWithContent(responses, keys[i..])
    {
      if keys[i] in responses && HasContent(responses[keys[i]]) {
        return Some(keys[i]);
      }
      assert keys[i..][1..] == keys[i+1..];
    }
    keep := None;
  }

  lemma {:induction false} ScanInTwoParts(responses: Entries, a: seq<string>, b: seq<string>)
    ensures FirstWithContent(responses, a + b)
         == if FirstWithContent(responses, a).Some? then FirstWithContent(responses, a)
            else FirstWithContent(responses, b)
  {
    if a == [] {
      assert a + b == b;
    } else {
      assert (a + b)[1..] == a[1..] + b;
      ScanInTwoParts(responses, a[1..], b);
    }
  }

  method KeepOneResponse(original: Entries, order: KeyOrder) returns (m: Entries)
    requires Lists(order)
    ensures m == PruneStep(original, order)
  {
    m := original;
    if "responses" in m && m["responses"].Object? {
      var responses := m["responses"].entries;
      var keep := Scan(responses, PREFERRED);
      if keep.None? {
        keep := Scan(responses, order(responses));
      }
      ScanInTwoParts(responses, PREFERRED, order(responses));
      FirstWithContentIs(responses, PREFERRED + order(responses));
      if keep.Some? {
        var kept := KeepOneMediaType(responses[keep.value], order);
        responses := map[keep.value := kept];
        m := m["responses" := Object(responses)];
      }
    }
  }

  method KeepOneMediaType(response: Value, order: KeyOrder) returns (kept: Value)
    requires Lists(order) && HasContent(response)
    ensures kept == PruneContent(response, order)
  {
    var content := ContentOf(response);
    kept := response;
    if |content| > 1 {
      if "application/json" in content {
        content := map["application/json" := content["application/json"]];
      } else {
        var first := FirstKey(content, order);
        content := map[first := content[first]];
      }
      kept := Object(response.entries["content" := Object(content)]);
    }
  }

  // ---------- what one pass leaves ----------

  // At most one response has content, and then it is alone and has one media type.
  predicate ResponsesPruned(responses: Entries) {
    forall k | k in responses && HasContent(responses[k]) ::
      |responses| == 1 && |ContentOf(responses[k])| == 1
  }

  predicate Pruned(v: Value) {
    match v
    case Array(items) => forall i | 0 <= i < |items| :: Pruned(items[i])
    case Object(m) =>
      && ("responses" in m && m["responses"].Object? ==> ResponsesPruned(m["responses"].entries))
      && forall k | k in m :: Pruned(m[k])
    case _ => true
  }

  lemma PrunedContentSize(response: Value, order: KeyOrder)
    requires Lists(order) && HasContent(response)
    ensures HasContent(PruneContent(response, order)) && |ContentOf(PruneContent(response, order))| == 1
    ensures PruneContent(response, order).entries.Keys == response.entries.Keys
  {
    var content := ContentOf(response);
    assert |content| >= 1;
  }

  // Visiting an object does not give it content, nor change how much it has.
  lemma VisitKeepsContent(v: Value, order: KeyOrder)
    requires Lists(order)
    ensures HasContent(Prune(v, order)) <==> HasContent(v)
    ensures HasContent(v) ==> |ContentOf(Prune(v, order))| == |ContentOf(v)|
    ensures HasContent(v) ==> ContentOf(Prune(v, order)).Keys == ContentOf(v).Keys
  {
    if v.Object? && "content" in v.entries {
      PruneStepWithin(v.entries, order);
      var c := v.entries["content"];
      assert PruneStep(v.entries, order)["content"] == c;
      assert Prune(v, order).entries["content"] == Prune(c, order);
      if c.Object? {
        PruneStepWithin(c.entries, order);
        assert Prune(c, order).entries.Keys == c.entries.Keys;
        assert |c.entries| == |c.entries.Keys| && |Prune(c, order).entries| == |Prune(c, order).entries.Keys|;
      }
    }
  }

  // A response visited as an entry of its `responses` object gains no content.
  lemma EntryKeepsContent(responses: Entries, k: string, order: KeyOrder)
    requires Lists(order) && k in responses
    ensures k in Prune(Object(responses), order).entries
    ensures HasContent(Prune(Object(responses), order).entries[k]) ==>
              HasContent(responses[k])
              && |ContentOf(Prune(Object(responses), order).entries[k])| == |ContentOf(responses[k])|
  {
    PruneStepWithin(responses, order);
    var p := PruneStep(responses, order);
    assert Prune(Object(responses), order).entries[k] == Prune(p[k], order);
    VisitKeepsContent(p[k], order);
    if p[k] != responses[k] && HasContent(p[k]) {
      var inner := responses["responses"].entries;
      var keep := KeptKey(inner, order).value;
      assert keep == "content";
      var a, b := inner["content"], PruneContent(inner["content"], order);
      assert b.entries.Keys == a.entries.Keys;
      assert |b.entries| == |b.entries.Keys| && |a.entries| == |a.entries.Keys|;
    }
  }

  /** After one pass every `responses` object has at most one response with content, alone and with
      one media type. */
  lemma {:induction false} OnePassPrunes(v: Value, order: KeyOrder)
    requires Lists(order)
    ensures Pruned(Prune(v, order))
    decreases Weight(v)
  {
    match v
    case Array(items) =>
      forall i | 0 <= i < |items| ensures Pruned(Prune(items[i], order)) {
        ItemLighter(items, i);
        OnePassPrunes(items[i], order);
      }
      assert forall i | 0 <= i < |items| :: Prune(v, order).items[i] == Prune(items[i], order);
    case Object(m) =>
      var p, n := PruneStep(m, order), Prune(v, order).entries;
      PruneStepWithin(m, order);
      forall k | k in p ensures Pruned(n[k]) {
        OnePassPrunes(p[k], order);
      }
      if "responses" in n && n["responses"].Object? {
        assert n["responses"] == Prune(p["responses"], order);
        assert p["responses"].Object? && m["responses"].Object?;
        ResponsesPrunedAfterVisit(m, order);
      }
    case _ =>
  }

  lemma ResponsesPrunedAfterVisit(m: Entries, order: KeyOrder)
    requires Lists(order) && "responses" in m && m["responses"].Object?
    ensures ResponsesPruned(Prune(PruneStep(m, order)["responses"], order).entries)
  {
    var before := PruneStep(m, order)["responses"].entries;
    var after := Prune(Object(before), order).entries;
    PruneStepWithin(before, order);
    assert after.Keys == before.Keys;
    assert |after| == |after.Keys| && |before| == |before.Keys|;
    KeptResponse(m["responses"].entries, order);
    forall k | k in after && HasContent(after[k]) ensures |after| == 1 && |ContentOf(after[k])| == 1 {
      EntryKeepsContent(before, k, order);
    }
  }

  // The choice: the first preferred status with content, else the first response with content.
  lemma KeptResponse(responses: Entries, order: KeyOrder)
    requires Lists(order)
    ensures var after := PruneStep(map["responses" := Object(responses)], order)["responses"].entries;
            match KeptKey(responses, order)
            case Some(keep) =>
              && keep in responses && HasContent(responses[keep])
              && after == map[keep := PruneContent(responses[keep], order)]
              && HasContent(after[keep]) && |ContentOf(after[keep])| == 1
            case None => after == responses && forall k | k in responses :: !HasContent(responses[k])
  {
    var keys := PREFERRED + order(responses);
    FirstWithContentIs(responses, keys);
    if KeptKey(responses, order).Some? {
      PrunedContentSize(responses[KeptKey(responses, order).value], order);
    } else {
      forall k | k in responses ensures !HasContent(responses[k]) {
        assert ListsKeys(order(responses), responses);
        assert k in keys;
      }
    }
  }

  /** A second pass is the identity. */
  lemma {:induction false} PrunedIsFixed(v: Value, order: KeyOrder)
    requires Lists(order) && Pruned(v)
    ensures Prune(v, order) == v
    decreases Weight(v)
  {
    match v
    case Array(items) =>
      forall i | 0 <= i < |items| ensures Prune(items[i], order) == items[i] {
        ItemLighter(items, i);
        PrunedIsFixed(items[i], order);
      }
      assert Prune(v, order).items == items;
    case Object(m) =>
      PrunedStepIsFixed(m, order);
      forall k | k in m ensures Prune(m[k], order) == m[k] {
        EntryLighter(m, k);
        PrunedIsFixed(m[k], order);
      }
      assert Prune(v, order).entries == m;
    case _ =>
  }

  lemma PrunedStepIsFixed(m: Entries, order: KeyOrder)
    requires Lists(order)
    requires "responses" in m && m["responses"].Object? ==> ResponsesPruned(m["responses"].entries)
    ensures PruneStep(m, order) == m
  {
    if "responses" in m && m["responses"].Object? {
      var responses := m["responses"].entries;
      KeptResponse(responses, order);
      if KeptKey(responses, order).Some? {
        var keep := KeptKey(responses, order).value;
        assert PruneContent(responses[keep], order) == responses[keep];
        assert responses.Keys == {keep} by {
          assert |responses.Keys - {keep}| == 0;
        }
        assert responses == map[keep := responses[keep]];
      }
    }
  }

  /** Two passes are one. */
  lemma SecondPassIsIdentity(v: Value, order: KeyOrder)
    requires Lists(order)
    ensures Prune(Prune(v, order), order) == Prune(v, order)
  {
    OnePassPrunes(v, order);
    PrunedIsFixed(Prune(v, order), order);
  }

  /** When no response is itself keyed `responses`, the visited object holds exactly the chosen response
      with exactly the chosen media type, or all of them when none had content. */
  lemma ExactlyTheChosenResponse(m: Entries, order: KeyOrder)
    requires Lists(order) && "responses" in m && m["responses"].Object?
    requires "responses" !in m["responses"].entries
    ensures "responses" in Prune(Object(m), order).entries && Prune(Object(m), order).entries["responses"].Object?
    ensures var responses := m["responses"].entries;
            var after := Prune(Object(m), order).entries["responses"].entries;
            match KeptKey(responses, order)
            case Some(keep) =>
              && after.Keys == {keep} && keep in responses && HasContent(responses[keep]) && HasContent(after[keep])
              && var content := ContentOf(responses[keep]);
                 && |ContentOf(after[keep])| == 1
                 && ("application/json" in content ==> "application/json" in ContentOf(after[keep]))
                 && ("application/json" !in content ==> FirstKey(content, order) in ContentOf(after[keep]))
            case None => after.Keys == responses.Keys && forall k | k in responses :: !HasContent(responses[k])
  {
    var responses := m["responses"].entries;
    PruneStepWithin(m, order);
    var before := PruneStep(m, order)["responses"].entries;
    KeptResponse(responses, order);
    assert "responses" !in before;
    PruneStepWithin(before, order);
    assert PruneStep(before, order) == before;
    if KeptKey(responses, order).Some? {
      var keep := KeptKey(responses, order).value;
      var content := ContentOf(responses[keep]);
      VisitKeepsContent(before[keep], order);
    }
  }

  predicate Bears(responses: Entries, k: string) {
    k in responses && HasContent(responses[k])
  }

  /** Which response stays: the first of 200, 201, 202, 204, 206 and 207 with content; when none of them
      has any, the first response with content in the library's order; all of them when there is none. */
  lemma PreferredResponseIsKept(m: Entries, order: KeyOrder)
    requires Lists(order) && "responses" in m && m["responses"].Object?
    requires "responses" !in m["responses"].entries
    ensures "responses" in Prune(Object(m), order).entries && Prune(Object(m), order).entries["responses"].Object?
    ensures var r, after := m["responses"].entries, Prune(Object(m), order).entries["responses"].entries;
            && (if Bears(r, "200") then after.Keys == {"200"}
                else if Bears(r, "201") then after.Keys == {"201"}
                else if Bears(r, "202") then after.Keys == {"202"}
                else if Bears(r, "204") then after.Keys == {"204"}
                else if Bears(r, "206") then after.Keys == {"206"}
                else if Bears(r, "207") then after.Keys == {"207"}
                else
                  forall i | 0 <= i < |order(r)| && Bears(r, order(r)[i])
                             && (forall j | 0 <= j < i :: !Bears(r, order(r)[j])) ::
                    after.Keys == {order(r)[i]})
            && ((forall k | k in r :: !HasContent(r[k])) ==> after.Keys == r.Keys)
  {
    var r := m["responses"].entries;
    ExactlyTheChosenResponse(m, order);
    ScanInTwoParts(r, PREFERRED, order(r));
    FirstWithContentIs(r, PREFERRED);
    FirstWithContentIs(r, order(r));
    PreferredInOrder(r);
  }

  // The scan over the preferred codes, one by one.
  lemma PreferredInOrder(r: Entries)
    ensures FirstWithContent(r, PREFERRED)
         == if Bears(r, "200") then Some("200") else if Bears(r, "201") then Some("201")
            else if Bears(r, "202") then Some("202") else if Bears(r, "204") then Some("204")
            else if Bears(r, "206") then Some("206") else if Bears(r, "207") then Some("207") else None
  {
    var p1, p2 := ["201", "202", "204", "206", "207"], ["202", "204", "206", "207"];
    var p3, p4, p5 := ["204", "206", "207"], ["206", "207"], ["207"];
    assert FirstWithContent(r, []) == None;
    assert p5[1..] == [] && p4[1..] == p5 && p3[1..] == p4 && p2[1..] == p3 && p1[1..] == p2;
    assert FirstWithContent(r, p5) == if Bears(r, "207") then Some("207") else None;
    assert FirstWithContent(r, p4) == if Bears(r, "206") then Some("206") else FirstWithContent(r, p5);
    assert FirstWithContent(r, p3) == if Bears(r, "204") then Some("204") else FirstWithContent(r, p4);
    assert FirstWithContent(r, p2) == if Bears(r, "202") then Some("202") else FirstWithContent(r, p3);
    assert FirstWithContent(r, p1) == if Bears(r, "201") then Some("201") else FirstWithContent(r, p2);
    assert PREFERRED[1..] == p1;
  }

  /** How the kept response looks: of several media types only `application/json` stays, or else the first
      in the library's order, with its value; everything else of the response is visited as it was. */
  lemma KeptResponseIs(m: Entries, order: KeyOrder, keep: string)
    requires Lists(order) && "responses" in m && m["responses"].Object?
    requires "responses" !in m["responses"].entries && Bears(m["responses"].entries, keep)
    requires Prune(Object(m), order).entries.Keys >= {"responses"}
    requires Prune(Object(m), order).entries["responses"].Object?
    requires Prune(Object(m), order).entries["responses"].entries.Keys == {keep}
    ensures var response := m["responses"].entries[keep];
            var content := response.entries["content"].entries;
            && (|content| == 1 ==>
                  Prune(Object(m), order).entries["responses"].entries[keep] == Prune(response, order))
            && (|content| > 1 ==>
                  var media := if "application/json" in content then "application/json" else FirstKey(content, order);
                  && ("application/json" !in content ==> media == order(content)[0])
                  && Prune(Object(m), order).entries["responses"].entries[keep]
                     == Prune(Object(response.entries["content" := Object(map[media := content[media]])]), order))
  {
    var responses := m["responses"].entries;
    PruneStepWithin(m, order);
    var before := PruneStep(m, order)["responses"].entries;
    KeptResponse(responses, order);
    PruneStepWithin(before, order);
    assert PruneStep(before, order) == before;
  }

  /** Nothing but `responses` is touched at its level, and that only when it is an object. */
  lemma OthersAreVisitedAsTheyWere(m: Entries, order: KeyOrder)
    requires Lists(order)
    ensures Prune(Object(m), order).entries.Keys == m.Keys
    ensures forall k | k in m && (k != "responses" || !m[k].Object?) ::
              Prune(Object(m), order).entries[k] == Prune(m[k], order)
  {
    PruneStepWithin(m, order);
  }
}
