/**
 * JSON documents as the Python scripts write them and as the back end reads them
 * back with Jackson's tree model: `path` (a missing key gives the MissingNode),
 * `get(int)` (null out of range), `size` and the lenient `asText`, `asInt` and
 * `asDouble` conversions.
 */
module Json {
  import opened Wrappers
  import opened Text

  datatype Json =
    | JNull
    | JBool(b: bool)
    | JInt(i: int)
    | JFloat(f: real)
    | JStr(s: string)
    | JArr(items: seq<Json>)
    | JObj(fields: map<string, Json>)

  /** A Jackson `JsonNode`: a value, or the MissingNode. */
  datatype Node = Missing | Present(value: Json)

  /** `node.path(key)`: the field of an object, the MissingNode for anything else. */
  function Path(n: Node, key: string): (r: Node)
    ensures r.Present? <==> n.Present? && n.value.JObj? && key in n.value.fields
  {
    if n.Present? && n.value.JObj? && key in n.value.fields then Present(n.value.fields[key])
    else Missing
  }

  /** `node.size()`: elements of an array, fields of an object, 0 otherwise. */
  function Size(n: Node): nat {
    match n
    case Present(JArr(xs)) => |xs|
    case Present(JObj(m)) => |m|
    case _ => 0
  }

  /** `node.get(i)`: an array element in range; Java `null` (None) otherwise. */
  function Get(n: Node, i: int): (r: Option<Node>)
    ensures r.Some? <==> n.Present? && n.value.JArr? && 0 <= i < |n.value.items|
  {
    if n.Present? && n.value.JArr? && 0 <= i < |n.value.items| then Some(Present(n.value.items[i]))
    else None
  }

  /** `node.get(node.size() - 1)`. */
  function Last(n: Node): Option<Node> {
    Get(n, Size(n) - 1)
  }

  /**
   * The last element is there exactly when the node is a non-empty array; an
   * object, whatever its size, gives null.
   */
  lemma LastOfArray(n: Node)
    ensures Last(n).Some? <==> n.Present? && n.value.JArr? && n.value.items != []
    ensures Last(n).Some? ==> Last(n).value == Present(n.value.items[|n.value.items| - 1])
  {
  }

  /** Java's `(int)` / `(long)` cast of a double: toward zero. */
  function TruncateReal(f: real): (r: int)
    ensures f >= 0.0 ==> r as real <= f < r as real + 1.0
    ensures f < 0.0 ==> r as real - 1.0 < f <= r as real
  {
    if f >= 0.0 then f.Floor else -((-f).Floor)
  }

  /** `asText()`: the text of a string node, the literal form of a scalar, "" for containers and MissingNode. */
  function AsText(n: Node): string {
    match n
    case Missing => ""
    case Present(JNull) => "null"
    case Present(JBool(b)) => if b then "true" else "false"
    case Present(JInt(i)) => SignedDecimal(i)
    case Present(JFloat(_)) => ""
    case Present(JStr(s)) => s
    case Present(JArr(_)) => ""
    case Present(JObj(_)) => ""
  }

  /**
   * `asInt()`: numbers converted, booleans as 1/0, everything else 0. A string
   * node reads as 0 here: the numeric text Jackson would parse is not parsed.
   */
  function AsInt(n: Node): int {
    match n
    case Present(JInt(i)) => i
    case Present(JFloat(f)) => TruncateReal(f)
    case Present(JBool(b)) => if b then 1 else 0
    case _ => 0
  }

  /**
   * `asDouble()`: numbers converted, booleans as 1.0/0.0, everything else 0.0. A
   * string node reads as 0.0 here: the numeric text Jackson would parse is not parsed.
   */
  function AsDouble(n: Node): real {
    match n
    case Present(JInt(i)) => i as real
    case Present(JFloat(f)) => f
    case Present(JBool(b)) => if b then 1.0 else 0.0
    case _ => 0.0
  }
}
