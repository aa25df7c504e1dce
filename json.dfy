/** The values `json.loads` produces, with the three pieces of Python behaviour the
    core relies on: truthiness (`if x`, `x or y`), `dict.get` (None for a missing key)
    and `str(x)`. A JSON object keeps its entries in document order, as a Python
    dict does. */
module JsonModel {
  import opened Common

  datatype Field = Field(key: string, value: Json)

  datatype Json =
    | Null
    | Bool(b: bool)
    | Int(i: int)
    | Float(f: real)
    | Str(s: string)
    | Arr(items: seq<Json>)
    | Obj(fields: seq<Field>)

  /** Python truthiness: None, False, 0, 0.0 and empty strings, lists and dicts are false. */
  predicate Truthy(j: Json)
  {
    match j
    case Null => false
    case Bool(b) => b
    case Int(i) => i != 0
    case Float(f) => f != 0.0
    case Str(s) => s != []
    case Arr(xs) => xs != []
    case Obj(fs) => fs != []
  }

  /** Python's `a or b`: the first operand when it is truthy, else the second. */
  function Or(a: Json, b: Json): (r: Json)
    ensures r == a || r == b
    ensures Truthy(r) <==> Truthy(a) || Truthy(b)
  {
    if Truthy(a) then a else b
  }

  /** `d.get(k)`: the value stored under k, or None when the key is absent.
      With a repeated key this is the first entry. */
  function Get(fields: seq<Field>, k: string): (r: Json)
    ensures r != Null ==> exists i :: 0 <= i < |fields| && fields[i] == Field(k, r)
  {
    if fields == [] then Null
    else if fields[0].key == k then fields[0].value
    else Get(fields[1..], k)
  }

  /** `d.get(k)` is None when no entry has key k, and the value of the first entry
      with key k otherwise. */
  lemma {:induction false} GetFindsFirst(fields: seq<Field>, k: string)
    ensures (forall i :: 0 <= i < |fields| ==> fields[i].key != k) ==> Get(fields, k) == Null
    ensures forall i ::
      (0 <= i < |fields| && fields[i].key == k && forall j :: 0 <= j < i ==> fields[j].key != k)
      ==> Get(fields, k) == fields[i].value
    decreases |fields|
  {
    if fields != [] && fields[0].key != k {
      GetFindsFirst(fields[1..], k);
      assert forall i :: 1 <= i < |fields| ==> fields[i] == fields[1..][i - 1];
    }
  }

  /** `str(x)`, for the values whose text the core reads: None, booleans, integers,
      integral floats below 10^16 (rendered with a trailing ".0") and strings.
      The repr of other floats, lists and dicts is not modelled and reads as "". */
  function PyStr(j: Json): (r: string)
    ensures j.Null? ==> r == "None"
    ensures j.Bool? ==> r == (if j.b then "True" else "False")
    ensures j.Str? ==> r == j.s
    ensures j.Int? && j.i >= 0 ==> AllDigits(r) && DigitsValue(r) == j.i
  {
    match j
    case Null => "None"
    case Bool(b) => if b then "True" else "False"
    case Int(i) => (if i >= 0 then NatToStringRoundTrip(i); IntToString(i) else IntToString(i))
    case Float(f) =>
      if f == f.Floor as real && -10000000000000000.0 < f < 10000000000000000.0
      then IntToString(f.Floor) + ".0"
      else ""
    case Str(s) => s
    case Arr(_) => ""
    case Obj(_) => ""
  }
}
