/** The recursive listing search of the Immoweb JSON adapter (sites/immoweb.py):
    `walk` visits a parsed payload in pre-order and, at every dict, appends each
    list held under one of five allow-listed keys whose first element is a dict;
    `_parse_from_next_data` and `_parse_from_initial_state` run it from an empty
    list and answer `found or None`. Locating the script payload in the page and
    decoding it are outside the model: the payload arrives as an `Option<Json>`,
    None when the pattern did not match or `json.loads` raised. */
module ListingSearch {
  import opened Common
  import opened JsonModel

  /** The keys that hold listing arrays, in the order `walk` tries them. */
  const ListKeys: seq<string> := ["classifieds", "items", "results", "list", "properties"]

  /** `isinstance(v, list) and v and isinstance(v[0], dict)`: only the head is tested. */
  predicate Qualifies(v: Json)
  {
    v.Arr? && |v.items| > 0 && v.items[0].Obj?
  }

  /** What the keys `ks` contribute at a dict with these fields, in key order. */
  function KeyHits(fields: seq<Field>, ks: seq<string>): seq<Json>
  {
    if ks == [] then []
    else
      var v := Get(fields, ks[|ks| - 1]);
      KeyHits(fields, ks[..|ks| - 1]) + (if Qualifies(v) then v.items else [])
  }

  /** What one node contributes by itself: its allow-listed lists, when it is a dict. */
  function OwnHits(j: Json): seq<Json>
  {
    if j.Obj? then KeyHits(j.fields, ListKeys) else []
  }

  /** Everything `walk(j)` appends to `found`, in order. */
  function Collected(j: Json): seq<Json>
    decreases j
  {
    match j
    case Obj(fields) => OwnHits(j) + CollectedFields(fields)
    case Arr(items) => CollectedItems(items)
    case _ => []
  }

  function CollectedItems(xs: seq<Json>): seq<Json>
    decreases xs
  {
    if xs == [] then [] else Collected(xs[0]) + CollectedItems(xs[1..])
  }

  function CollectedFields(fs: seq<Field>): seq<Json>
    decreases fs
  {
    if fs == [] then [] else Collected(fs[0].value) + CollectedFields(fs[1..])
  }

  // ------------------------------------------------------------------ walk

  /** The first half of `walk` at a dict: try the allow-listed keys in order. */
  method CollectOwn(fields: seq<Field>, found: seq<Json>) returns (found': seq<Json>)
    ensures found' == found + OwnHits(Obj(fields))
  {
    found' := found;
    var keys := ListKeys;
    var i := 0;
    while i < |keys|
      invariant 0 <= i <= |keys|
      invariant found' == found + KeyHits(fields, keys[..i])
    {
      var v := Get(fields, keys[i]);
      if v.Arr? && |v.items| > 0 && v.items[0].Obj? {
        found' := found' + v.items;
      }
      KeyHitsAt(fields, keys, i);
      i := i + 1;
    }
    assert keys[..i] == keys;
  }

  /** `walk(obj)`: `found` is the enclosing list the nested function extends.
      At a dict the allow-listed keys are tried first, then every value is
      walked; at a list every item is walked; anything else adds nothing. */
  method Walk(obj: Json, found: seq<Json>) returns (found': seq<Json>)
    ensures found' == found + Collected(obj)
    decreases obj
  {
    match obj {
      case Obj(fields) =>
        found' := CollectOwn(fields, found);
        found' := WalkValues(fields, found');
      case Arr(items) =>
        found' := WalkItems(items, found);
      case _ =>
        found' := found;
    }
  }

  /** `for v in obj.values(): walk(v)` */
  method WalkValues(fields: seq<Field>, found: seq<Json>) returns (found': seq<Json>)
    ensures found' == found + CollectedFields(fields)
    decreases fields
  {
    found' := found;
    var k := 0;
    while k < |fields|
      invariant 0 <= k <= |fields|
      invariant found' == found + CollectedFields(fields[..k])
    {
      found' := Walk(fields[k].value, found');
      CollectedFieldsSnoc(fields[..k], fields[k]);
      assert fields[..k + 1] == fields[..k] + [fields[k]];
      k := k + 1;
    }
    assert fields[..k] == fields;
  }

  /** `for v in obj: walk(v)` */
  method WalkItems(items: seq<Json>, found: seq<Json>) returns (found': seq<Json>)
    ensures found' == found + CollectedItems(items)
    decreases items
  {
    found' := found;
    var k := 0;
    while k < |items|
      invariant 0 <= k <= |items|
      invariant found' == found + CollectedItems(items[..k])
    {
      found' := Walk(items[k], found');
      CollectedItemsSnoc(items[..k], items[k]);
      assert items[..k + 1] == items[..k] + [items[k]];
      k := k + 1;
    }
    assert items[..k] == items;
  }

  lemma {:induction false} CollectedItemsSnoc(xs: seq<Json>, x: Json)
    ensures CollectedItems(xs + [x]) == CollectedItems(xs) + Collected(x)
    decreases |xs|
  {
    if xs == [] {
      assert [x][1..] == [];
    } else {
      assert (xs + [x])[1..] == xs[1..] + [x];
      CollectedItemsSnoc(xs[1..], x);
    }
  }

  lemma {:induction false} CollectedFieldsSnoc(fs: seq<Field>, f: Field)
    ensures CollectedFields(fs + [f]) == CollectedFields(fs) + Collected(f.value)
    decreases |fs|
  {
    var g := fs + [f];
    if fs == [] {
      assert g == [f] && g[1..] == [];
    } else {
      assert g[0] == fs[0] && g[1..] == fs[1..] + [f];
      CollectedFieldsSnoc(fs[1..], f);
      assert CollectedFields(g) == Collected(fs[0].value) + CollectedFields(fs[1..] + [f]);
    }
  }

  /** `_parse_from_next_data` / `_parse_from_initial_state` after decoding:
      walk the payload from an empty list and answer `found or None`. */
  method SearchPayload(payload: Option<Json>) returns (r: Option<seq<Json>>)
    ensures r == None <==> payload == None || Collected(payload.value) == []
    ensures r.Some? ==> r.value == Collected(payload.value) && r.value != []
  {
    if payload == None {
      return None;
    }
    var found := Walk(payload.value, []);
    if found == [] {
      r := None;
    } else {
      r := Some(found);
    }
  }

  // ------------------------------------------- pre-order reference reading

  /** Every node of the tree, each before its descendants, siblings in order. */
  function PreOrder(j: Json): (r: seq<Json>)
    ensures |r| >= 1 && r[0] == j
    decreases j
  {
    [j] + match j
      case Obj(fields) => PreOrderFields(fields)
      case Arr(items) => PreOrderItems(items)
      case _ => []
  }

  function PreOrderItems(xs: seq<Json>): seq<Json>
    decreases xs
  {
    if xs == [] then [] else PreOrder(xs[0]) + PreOrderItems(xs[1..])
  }

  function PreOrderFields(fs: seq<Field>): seq<Json>
    decreases fs
  {
    if fs == [] then [] else PreOrder(fs[0].value) + PreOrderFields(fs[1..])
  }

  /** The own contributions of a sequence of nodes, concatenated in order. */
  function HitsOf(nodes: seq<Json>): seq<Json>
  {
    if nodes == [] then [] else OwnHits(nodes[0]) + HitsOf(nodes[1..])
  }

  lemma {:induction false} HitsOfAppend(a: seq<Json>, b: seq<Json>)
    ensures HitsOf(a + b) == HitsOf(a) + HitsOf(b)
    decreases |a|
  {
    if a == [] {
      assert a + b == b;
    } else {
      assert (a + b)[0] == a[0] && (a + b)[1..] == a[1..] + b;
      HitsOfAppend(a[1..], b);
    }
  }

  /** The search is exactly: visit every node in pre-order and concatenate the
      allow-listed lists found at each dict. */
  lemma {:induction false} CollectedIsPreOrderHits(j: Json)
    ensures Collected(j) == HitsOf(PreOrder(j))
    decreases j
  {
    var rest := match j
      case Obj(fields) => PreOrderFields(fields)
      case Arr(items) => PreOrderItems(items)
      case _ => [];
    assert PreOrder(j) == [j] + rest;
    HitsOfAppend([j], rest);
    assert HitsOf([j]) == OwnHits(j);
    match j {
      case Obj(fields) => CollectedFieldsIsPreOrderHits(fields);
      case Arr(items) => CollectedItemsIsPreOrderHits(items);
      case _ =>
    }
  }

  lemma {:induction false} CollectedItemsIsPreOrderHits(xs: seq<Json>)
    ensures CollectedItems(xs) == HitsOf(PreOrderItems(xs))
    decreases xs
  {
    if xs != [] {
      CollectedIsPreOrderHits(xs[0]);
      CollectedItemsIsPreOrderHits(xs[1..]);
      HitsOfAppend(PreOrder(xs[0]), PreOrderItems(xs[1..]));
    }
  }

  lemma {:induction false} CollectedFieldsIsPreOrderHits(fs: seq<Field>)
    ensures CollectedFields(fs) == HitsOf(PreOrderFields(fs))
    decreases fs
  {
    if fs != [] {
      CollectedIsPreOrderHits(fs[0].value);
      CollectedFieldsIsPreOrderHits(fs[1..]);
      HitsOfAppend(PreOrder(fs[0].value), PreOrderFields(fs[1..]));
    }
  }

  /** Completeness and order: the lists found at the p-th node of the pre-order
      walk appear whole, after everything found at earlier nodes and before
      everything found at later ones (including that node's own descendants). */
  lemma NodeHitsInPlace(j: Json, p: nat)
    requires p < |PreOrder(j)|
    ensures var nodes := PreOrder(j);
      Collected(j) == HitsOf(nodes[..p]) + OwnHits(nodes[p]) + HitsOf(nodes[p + 1..])
  {
    var nodes := PreOrder(j);
    CollectedIsPreOrderHits(j);
    assert nodes == nodes[..p] + [nodes[p]] + nodes[p + 1..];
    HitsOfAppend(nodes[..p] + [nodes[p]], nodes[p + 1..]);
    HitsOfAppend(nodes[..p], [nodes[p]]);
    assert HitsOf([nodes[p]]) == OwnHits(nodes[p]);
  }

  /** Soundness: everything found comes from an allow-listed list at some node. */
  lemma {:induction false} HitsOfMember(nodes: seq<Json>, x: Json)
    requires x in HitsOf(nodes)
    ensures exists p :: 0 <= p < |nodes| && x in OwnHits(nodes[p])
    decreases |nodes|
  {
    if x !in OwnHits(nodes[0]) {
      HitsOfMember(nodes[1..], x);
      var p :| 0 <= p < |nodes[1..]| && x in OwnHits(nodes[1..][p]);
      assert nodes[1..][p] == nodes[p + 1];
    }
  }

  lemma CollectedMember(j: Json, x: Json)
    requires x in Collected(j)
    ensures exists p :: 0 <= p < |PreOrder(j)| && x in OwnHits(PreOrder(j)[p])
  {
    CollectedIsPreOrderHits(j);
    HitsOfMember(PreOrder(j), x);
  }

  /** A dict contributes a key's whole list exactly when that list qualifies. */
  lemma KeyHitsAt(fields: seq<Field>, ks: seq<string>, n: nat)
    requires n < |ks|
    ensures var v := Get(fields, ks[n]);
      KeyHits(fields, ks[..n + 1]) == KeyHits(fields, ks[..n]) + (if Qualifies(v) then v.items else [])
  {
    assert ks[..n + 1][..n] == ks[..n];
  }

  /** When no key but the n-th qualifies, a dict contributes exactly that key's list. */
  lemma {:induction false} KeyHitsOnly(fields: seq<Field>, ks: seq<string>, n: nat)
    requires n < |ks|
    requires forall m :: 0 <= m < |ks| && m != n ==> !Qualifies(Get(fields, ks[m]))
    ensures var v := Get(fields, ks[n]);
      KeyHits(fields, ks) == if Qualifies(v) then v.items else []
    decreases |ks|
  {
    var last := |ks| - 1;
    var init := ks[..last];
    if n == last {
      KeyHitsNone(fields, init);
    } else {
      KeyHitsOnly(fields, init, n);
    }
  }

  /** When no key qualifies, a dict contributes nothing. */
  lemma {:induction false} KeyHitsNone(fields: seq<Field>, ks: seq<string>)
    requires forall m :: 0 <= m < |ks| ==> !Qualifies(Get(fields, ks[m]))
    ensures KeyHits(fields, ks) == []
    decreases |ks|
  {
    if ks != [] {
      KeyHitsNone(fields, ks[..|ks| - 1]);
    }
  }

  // -------------------------------------------------------------- examples

  /** The allow-listed keys start with five different letters. */
  lemma ListKeysDistinct(m: nat, n: nat)
    requires m < |ListKeys| && n < |ListKeys| && m != n
    ensures ListKeys[m] != ListKeys[n]
  {
    assert ListKeys[m][0] != ListKeys[n][0];
  }

  /** A dict with one allow-listed key contributes that key's list when it qualifies. */
  lemma OwnHitsSingle(n: nat, v: Json)
    requires n < |ListKeys|
    ensures OwnHits(Obj([Field(ListKeys[n], v)])) == if Qualifies(v) then v.items else []
  {
    var fs := [Field(ListKeys[n], v)];
    forall m | 0 <= m < |ListKeys| && m != n
      ensures !Qualifies(Get(fs, ListKeys[m]))
    {
      ListKeysDistinct(m, n);
    }
    KeyHitsOnly(fs, ListKeys, n);
  }

  /** A dict with no key contributes nothing. */
  lemma EmptyDictExample()
    ensures Collected(Obj([])) == []
  {
    KeyHitsNone([], ListKeys);
  }

  /** `{"list": [{}]}` yields the inner empty dict: a qualifying list is collected
      whole, and its items are then searched as well. */
  lemma InnerExample()
    ensures Collected(Obj([Field("list", Arr([Obj([])]))])) == [Obj([])]
  {
    var v := Arr([Obj([])]);
    var fs := [Field("list", v)];
    assert ListKeys[3] == "list";
    OwnHitsSingle(3, v);
    EmptyDictExample();
    assert CollectedItems([Obj([])]) == [] by {
      assert [Obj([])][1..] == [];
    }
    assert CollectedFields(fs) == [] by {
      assert fs[1..] == [];
    }
  }

  /** Only the head of a list is tested, so a later non-dict is collected too;
      and the search goes on inside a list it has already collected. */
  lemma NestedAndMixedExample()
    ensures var inner := Obj([Field("list", Arr([Obj([])]))]);
      Collected(Obj([Field("items", Arr([inner, Int(7)]))])) == [inner, Int(7), Obj([])]
  {
    var inner := Obj([Field("list", Arr([Obj([])]))]);
    var v := Arr([inner, Int(7)]);
    var fs := [Field("items", v)];
    assert ListKeys[1] == "items";
    OwnHitsSingle(1, v);
    InnerExample();
    assert CollectedItems([Int(7)]) == [] by {
      assert [Int(7)][1..] == [];
    }
    assert CollectedItems([inner, Int(7)]) == [Obj([])] by {
      assert [inner, Int(7)][1..] == [Int(7)];
    }
    assert CollectedFields(fs) == [Obj([])] by {
      assert fs[1..] == [];
    }
  }
}
