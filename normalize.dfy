/** `_normalize_items` of the Immoweb JSON adapter (sites/immoweb.py): each raw
    item is mapped to a canonical listing, items without a usable price are
    dropped, and the first item whose shape makes a `.get` call fail aborts the
    whole call with AttributeError. */
module Normalize {
  import opened Common
  import opened JsonModel
  import opened Clean
  import opened Listings

  /** Why an item raises AttributeError: the value `.get` is called on is not a dict. */
  datatype Raise =
    | ItemNotADict      // it.get(...), line 115
    | PriceNotADict     // price_obj.get(...), line 120
    | PropertyNotADict  // prop.get(...), line 121
    | LocationNotADict  // loc.get(...), line 124; a missing location is None

  datatype ItemOutcome = Raised(why: Raise) | Dropped | Emitted(listing: Listing)

  /** The result of the whole call: the records, or the index of the item that raised. */
  datatype Outcome = Normalized(out: seq<Listing>) | Failed(index: nat, why: Raise)

  const ClassifiedBase: string := "https://www.immoweb.be/en/classified/"

  /** `it.get("price") or {}` */
  function PriceObj(it: seq<Field>): Json
  {
    Or(Get(it, "price"), Obj([]))
  }

  /** `it.get("property") or it.get("realEstate") or {}` */
  function Prop(it: seq<Field>): Json
  {
    Or(Or(Get(it, "property"), Get(it, "realEstate")), Obj([]))
  }

  /** `price_obj.get("mainValue") or it.get("priceValue") or price_obj.get("value")` */
  function RawPrice(it: seq<Field>, priceObj: seq<Field>): Json
  {
    Or(Or(Get(priceObj, "mainValue"), Get(it, "priceValue")), Get(priceObj, "value"))
  }

  function RawArea(prop: seq<Field>): Json
  {
    Or(Or(Or(Get(prop, "netHabitableSurface"), Get(prop, "netHabitable")),
          Get(prop, "livingArea")), Get(prop, "surface"))
  }

  function RawBedrooms(prop: seq<Field>): Json
  {
    Or(Get(prop, "bedroomCount"), Get(prop, "bedrooms"))
  }

  /** The city field: "postal locality" when both are truthy, else the locality
      value itself (or "" when it is falsy). */
  function City(loc: seq<Field>): (city: Json)
    ensures city == Str("") || Truthy(city)
  {
    var city := Or(Or(Get(loc, "locality"), Get(loc, "localityName")), Str(""));
    var postal := Or(Get(loc, "postalCode"), Str(""));
    if Truthy(city) && Truthy(postal) then Str(PyStr(postal) + " " + PyStr(city)) else city
  }

  /** The detail link, when the item has a truthy id or classifiedId. */
  function ClassifiedUrl(it: seq<Field>): (url: Option<string>)
    ensures url.Some? ==> StartsWith(url.value, ClassifiedBase)
  {
    var cid := Or(Get(it, "id"), Get(it, "classifiedId"));
    if Truthy(cid) then Some(ClassifiedBase + PyStr(cid)) else None
  }

  /** `float(area) if area else None` */
  function AreaField(a: Option<real>): Option<real>
  {
    if a.Some? && a.value != 0.0 then a else None
  }

  /** One pass of the loop body: the AttributeError it raises, or whether it
      appends a record and which. */
  function NormalizeItem(item: Json): (r: ItemOutcome)
    ensures !item.Obj? ==> r == Raised(ItemNotADict)
    ensures r.Emitted? ==> r.listing.price != 0.0 && r.listing.price == r.listing.price.Floor as real
  {
    if !item.Obj? then Raised(ItemNotADict)
    else
      var it := item.fields;
      var priceObj := PriceObj(it);
      var prop := Prop(it);
      if !priceObj.Obj? then Raised(PriceNotADict)
      else if !prop.Obj? then Raised(PropertyNotADict)
      else
        var loc := Get(prop.fields, "location");
        if !loc.Obj? then Raised(LocationNotADict)
        else
          var price := CleanInt(RawPrice(it, priceObj.fields));
          if price.None? || price.value == 0 then Dropped
          else
            Emitted(Listing(
              price.value as real,
              AreaField(CleanFloat(RawArea(prop.fields))),
              CleanInt(RawBedrooms(prop.fields)),
              City(loc.fields),
              ClassifiedUrl(it)))
  }

  /** What the loop body does with each item, in input order. */
  function Outcomes(items: seq<Json>): (os: seq<ItemOutcome>)
    ensures |os| == |items| && forall i :: 0 <= i < |items| ==> os[i] == NormalizeItem(items[i])
  {
    seq(|items|, i requires 0 <= i < |items| => NormalizeItem(items[i]))
  }

  /** The loop over a sequence of per-item outcomes: the records appended so far,
      or the index of the first item that raised. */
  function Run(os: seq<ItemOutcome>): Outcome
  {
    if os == [] then Normalized([])
    else
      var n := |os| - 1;
      match Run(os[..n])
      case Failed(i, w) => Failed(i, w)
      case Normalized(out) =>
        match os[n]
        case Raised(w) => Failed(n, w)
        case Dropped => Normalized(out)
        case Emitted(l) => Normalized(out + [l])
  }

  /** The whole call, as a value. */
  function NormalizeSpec(items: seq<Json>): Outcome
  {
    Run(Outcomes(items))
  }

  /** `_normalize_items(items)` */
  method NormalizeItems(items: seq<Json>) returns (r: Outcome)
    ensures r == NormalizeSpec(items)
  {
    ghost var os := Outcomes(items);
    var out: seq<Listing> := [];
    var i := 0;
    while i < |items|
      invariant 0 <= i <= |items|
      invariant Run(os[..i]) == Normalized(out)
    {
      assert os[..i + 1][..i] == os[..i];
      var o := NormalizeItem(items[i]);
      match o {
        case Raised(w) =>
          RunPrefixFailed(os, i + 1);
          return Failed(i, w);
        case Dropped =>
        case Emitted(l) =>
          out := out + [l];
      }
      i := i + 1;
    }
    assert os[..i] == os;
    r := Normalized(out);
  }

  /** Once the loop has raised, later items change nothing. */
  lemma {:induction false} RunPrefixFailed(os: seq<ItemOutcome>, k: nat)
    requires k <= |os| && Run(os[..k]).Failed?
    ensures Run(os) == Run(os[..k])
    decreases |os| - k
  {
    if k < |os| {
      var n := |os| - 1;
      assert os[..n][..k] == os[..k];
      RunPrefixFailed(os[..n], k);
    } else {
      assert os[..k] == os;
    }
  }

  // ------------------------------------------------------- the whole call

  /** The loop fails at index i exactly when outcome i is the first that raises. */
  lemma {:induction false} RunFailsAtFirstRaise(os: seq<ItemOutcome>)
    ensures Run(os).Failed? <==> exists i :: 0 <= i < |os| && os[i].Raised?
    ensures Run(os).Failed? ==>
      Run(os).index < |os| && os[Run(os).index] == Raised(Run(os).why) &&
      forall j :: 0 <= j < Run(os).index ==> !os[j].Raised?
    decreases |os|
  {
    if os != [] {
      var n := |os| - 1;
      RunFailsAtFirstRaise(os[..n]);
      assert forall j :: 0 <= j < n ==> os[..n][j] == os[j];
    }
  }

  /** The call raises exactly when some item raises, and then at the first such item. */
  lemma FailsAtFirstRaise(items: seq<Json>)
    ensures NormalizeSpec(items).Failed? <==>
      exists i :: 0 <= i < |items| && NormalizeItem(items[i]).Raised?
    ensures NormalizeSpec(items).Failed? ==>
      var f := NormalizeSpec(items);
      f.index < |items| && NormalizeItem(items[f.index]) == Raised(f.why) &&
      forall j :: 0 <= j < f.index ==> !NormalizeItem(items[j]).Raised?
  {
    var os := Outcomes(items);
    RunFailsAtFirstRaise(os);
    if exists i :: 0 <= i < |items| && NormalizeItem(items[i]).Raised? {
      var i :| 0 <= i < |items| && NormalizeItem(items[i]).Raised?;
      assert os[i].Raised?;
    }
  }

  /** The indices of the outcomes that append a record, in increasing order. */
  function EmittingIndices(os: seq<ItemOutcome>): (idx: seq<nat>)
    ensures |idx| <= |os|
    ensures forall k :: 0 <= k < |idx| ==> idx[k] < |os|
  {
    if os == [] then []
    else
      var n := |os| - 1;
      EmittingIndices(os[..n]) + (if os[n].Emitted? then [n] else [])
  }

  /** The emitting indices are strictly increasing and are exactly the outcomes that emit. */
  lemma {:induction false} EmittingIndicesExact(os: seq<ItemOutcome>)
    ensures var idx := EmittingIndices(os);
      (forall k, k' :: 0 <= k < k' < |idx| ==> idx[k] < idx[k']) &&
      (forall i :: 0 <= i < |os| ==> (os[i].Emitted? <==> i in idx))
    decreases |os|
  {
    if os != [] {
      var n := |os| - 1;
      var pre := os[..n];
      EmittingIndicesExact(pre);
      assert forall j :: 0 <= j < n ==> pre[j] == os[j];
    }
  }

  /** The k-th record is the one the k-th emitting outcome appends. */
  lemma {:induction false} RecordsMatchIndices(os: seq<ItemOutcome>)
    requires Run(os).Normalized?
    ensures var out := Run(os).out;
      var idx := EmittingIndices(os);
      |out| == |idx| &&
      forall k :: 0 <= k < |idx| ==> os[idx[k]] == Emitted(out[k])
    decreases |os|
  {
    if os != [] {
      var n := |os| - 1;
      var pre := os[..n];
      assert Run(pre).Normalized?;
      RecordsMatchIndices(pre);
      var out0 := Run(pre).out;
      var idx0 := EmittingIndices(pre);
      forall k | 0 <= k < |idx0| ensures os[idx0[k]] == pre[idx0[k]] {
      }
      match os[n] {
        case Emitted(l) =>
          assert Run(os).out == out0 + [l];
          assert EmittingIndices(os) == idx0 + [n];
        case Dropped =>
          assert Run(os).out == out0;
          assert EmittingIndices(os) == idx0;
        case Raised(_) =>
      }
    }
  }

  /** On success the records correspond, in order and one for one, to the items
      that append one: at most one record per item, input order kept, and exactly
      the items with a non-None, non-zero cleaned price are kept. */
  lemma NormalizedInOrder(items: seq<Json>)
    requires NormalizeSpec(items).Normalized?
    ensures var out := NormalizeSpec(items).out;
      var idx := EmittingIndices(Outcomes(items));
      |out| == |idx| <= |items| &&
      (forall k, k' :: 0 <= k < k' < |idx| ==> idx[k] < idx[k']) &&
      (forall k :: 0 <= k < |idx| ==> NormalizeItem(items[idx[k]]) == Emitted(out[k])) &&
      (forall i :: 0 <= i < |items| ==> (NormalizeItem(items[i]).Emitted? <==> i in idx))
  {
    EmittingIndicesExact(Outcomes(items));
    RecordsMatchIndices(Outcomes(items));
  }

  // -------------------------------------------------------- one item

  /** An item is emitted exactly when its shape is well-formed and its cleaned
      price is neither None nor 0; the record's price is that integer as a float. */
  lemma EmittedIffPrice(it: seq<Field>)
    requires PriceObj(it).Obj? && Prop(it).Obj? && Get(Prop(it).fields, "location").Obj?
    ensures var p := CleanInt(RawPrice(it, PriceObj(it).fields));
      (NormalizeItem(Obj(it)).Emitted? <==> p.Some? && p.value != 0) &&
      (NormalizeItem(Obj(it)).Emitted? ==> NormalizeItem(Obj(it)).listing.price == p.value as real) &&
      (!NormalizeItem(Obj(it)).Emitted? ==> NormalizeItem(Obj(it)) == Dropped)
  {
  }

  /** An item with a price dict but neither property nor realEstate raises: the
      property falls back to `{}`, whose location is None. */
  lemma MissingLocationRaises(it: seq<Field>)
    requires PriceObj(it).Obj?
    requires !Truthy(Get(it, "property")) && !Truthy(Get(it, "realEstate"))
    ensures NormalizeItem(Obj(it)) == Raised(LocationNotADict)
  {
    assert Prop(it) == Obj([]);
  }

  /** An item with a price dict and a property dict whose location is missing or
      not a dict raises at the location lookup, before the price is cleaned. */
  lemma LocationNotADictRaises(it: seq<Field>)
    requires PriceObj(it).Obj? && Prop(it).Obj?
    requires !Get(Prop(it).fields, "location").Obj?
    ensures NormalizeItem(Obj(it)) == Raised(LocationNotADict)
  {
  }

  /** A truthy price that is not a dict raises at line 120, before anything else. */
  lemma PriceNotADictRaises(it: seq<Field>)
    requires Truthy(Get(it, "price")) && !Get(it, "price").Obj?
    ensures NormalizeItem(Obj(it)) == Raised(PriceNotADict)
  {
  }

  /** The city rule: "postal locality" when both are present, the locality alone
      when the postal code is missing, "" when the locality is missing, even if
      a postal code is there. */
  lemma CityRule(loc: seq<Field>)
    ensures var locality := Or(Get(loc, "locality"), Get(loc, "localityName"));
      var postal := Get(loc, "postalCode");
      (Truthy(locality) && Truthy(postal) ==>
         City(loc) == Str(PyStr(postal) + " " + PyStr(locality))) &&
      (Truthy(locality) && !Truthy(postal) ==> City(loc) == locality) &&
      (!Truthy(locality) ==> City(loc) == Str(""))
  {
  }

  /** The link is the classified page of the first truthy id, and None without one. */
  lemma UrlRule(it: seq<Field>)
    ensures var cid := Or(Get(it, "id"), Get(it, "classifiedId"));
      (ClassifiedUrl(it).Some? <==> Truthy(cid)) &&
      (ClassifiedUrl(it).Some? ==>
         StartsWith(ClassifiedUrl(it).value, ClassifiedBase) &&
         ClassifiedUrl(it).value[|ClassifiedBase|..] == PyStr(cid))
  {
  }

  /** `area_m2` is None exactly when the cleaned area is None or 0. */
  lemma AreaRule(a: Option<real>)
    ensures AreaField(a) == None <==> a == None || a == Some(0.0)
    ensures AreaField(a).Some? ==> AreaField(a) == a
  {
  }

  // --------------------------------------------------------------- example

  /** The item {id: 42, price: {mainValue: "300000"}, property: {netHabitableSurface: 80,
      bedroomCount: 2, location: {postalCode: "1000", locality: "Brussels"}}}. */
  function Item42(): Json
  {
    Obj([
      Field("id", Int(42)),
      Field("price", Obj([Field("mainValue", Str("300000"))])),
      Field("property", Obj([
        Field("netHabitableSurface", Int(80)),
        Field("bedroomCount", Int(2)),
        Field("location", Obj([Field("postalCode", Str("1000")), Field("locality", Str("Brussels"))]))]))])
  }

  lemma Item42Value()
    ensures DigitsValue("300000") == 300000
  {
    assert "300000"[..5] == "30000";
    assert "30000"[..4] == "3000";
    assert "3000"[..3] == "300";
    assert "300"[..2] == "30";
    assert "30"[..1] == "3";
  }

  lemma Item42Price()
    ensures CleanInt(Str("300000")) == Some(300000)
  {
    var s := "300000";
    assert AllDigits(s) && NoLeadingZero(s);
    Item42Value();
    DigitsValueRoundTrip(s);
    CleanIntReadsRendering("", 300000, "");
    assert "" + NatToString(300000) + "" == s;
  }

  lemma Item42Url()
    ensures ClassifiedBase + PyStr(Int(42)) == "https://www.immoweb.be/en/classified/42"
  {
    assert NatToString(4) == "4";
    assert NatToString(42) == NatToString(4) + [DigitChar(2)];
    assert PyStr(Int(42)) == "42";
  }

  function Loc42(): seq<Field>
  {
    [Field("postalCode", Str("1000")), Field("locality", Str("Brussels"))]
  }

  function Prop42(): seq<Field>
  {
    [Field("netHabitableSurface", Int(80)), Field("bedroomCount", Int(2)), Field("location", Obj(Loc42()))]
  }

  lemma Item42Parts()
    ensures Item42().Obj?
    ensures PriceObj(Item42().fields) == Obj([Field("mainValue", Str("300000"))])
    ensures Prop(Item42().fields) == Obj(Prop42())
    ensures Get(Prop42(), "location") == Obj(Loc42())
  {
  }

  lemma Item42Fields()
    ensures RawPrice(Item42().fields, [Field("mainValue", Str("300000"))]) == Str("300000")
    ensures RawArea(Prop42()) == Int(80)
    ensures RawBedrooms(Prop42()) == Int(2)
  {
  }

  lemma Item42Link()
    ensures ClassifiedUrl(Item42().fields) == Some("https://www.immoweb.be/en/classified/42")
  {
    assert Or(Get(Item42().fields, "id"), Get(Item42().fields, "classifiedId")) == Int(42);
    Item42Url();
  }

  lemma Item42City()
    ensures City(Loc42()) == Str("1000 Brussels")
  {
  }

  /** What a well-formed item with a usable price appends. */
  lemma EmittedRecord(it: seq<Field>, p: int)
    requires PriceObj(it).Obj? && Prop(it).Obj? && Get(Prop(it).fields, "location").Obj?
    requires CleanInt(RawPrice(it, PriceObj(it).fields)) == Some(p) && p != 0
    ensures NormalizeItem(Obj(it)) == Emitted(Listing(
      p as real,
      AreaField(CleanFloat(RawArea(Prop(it).fields))),
      CleanInt(RawBedrooms(Prop(it).fields)),
      City(Get(Prop(it).fields, "location").fields),
      ClassifiedUrl(it)))
  {
  }

  lemma Item42Example()
    ensures NormalizeItem(Item42()) == Emitted(Listing(
      300000.0, Some(80.0), Some(2), Str("1000 Brussels"),
      Some("https://www.immoweb.be/en/classified/42")))
  {
    Item42Price();
    Item42Parts();
    Item42Fields();
    Item42Link();
    Item42City();
    Item42Numbers();
    var it := Item42().fields;
    assert Item42() == Obj(it);
    EmittedRecord(it, 300000);
  }

  lemma Item42Numbers()
    ensures AreaField(CleanFloat(Int(80))) == Some(80.0)
    ensures CleanInt(Int(2)) == Some(2)
  {
  }
}
