/** The canonical listing record every adapter produces: a dict with exactly the
    keys price, area_m2, bedrooms, city and url. */
module Listings {
  import opened Common
  import opened JsonModel

  /** One listing. `city` stays a JSON value because the Immoweb JSON adapter
      passes a non-text locality through unchanged. */
  datatype Listing = Listing(
    price: real,
    areaM2: Option<real>,
    bedrooms: Option<int>,
    city: Json,
    url: Option<string>)

  const RowKeys: set<string> := {"price", "area_m2", "bedrooms", "city", "url"}

  function OptReal(x: Option<real>): Json
  {
    if x.Some? then Float(x.value) else Null
  }

  function OptInt(x: Option<int>): Json
  {
    if x.Some? then Int(x.value) else Null
  }

  function OptStr(x: Option<string>): Json
  {
    if x.Some? then Str(x.value) else Null
  }

  /** The record as the dict the adapters append: the five keys and nothing else,
      absent values as None. */
  function ToRow(l: Listing): (r: map<string, Json>)
    ensures r.Keys == RowKeys
    ensures r["price"] == Float(l.price) && r["city"] == l.city
    ensures r["area_m2"] == Null <==> l.areaM2 == None
    ensures r["bedrooms"] == Null <==> l.bedrooms == None
    ensures r["url"] == Null <==> l.url == None
    ensures l.areaM2.Some? ==> r["area_m2"] == Float(l.areaM2.value)
    ensures l.bedrooms.Some? ==> r["bedrooms"] == Int(l.bedrooms.value)
    ensures l.url.Some? ==> r["url"] == Str(l.url.value)
  {
    map["price" := Float(l.price), "area_m2" := OptReal(l.areaM2),
        "bedrooms" := OptInt(l.bedrooms), "city" := l.city, "url" := OptStr(l.url)]
  }
}
