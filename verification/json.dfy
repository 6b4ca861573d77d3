/**
 * An already-parsed JSON document, as the feed processors in main.cpp see it
 * through nlohmann::json, and the two indexing operators they apply to it.
 */
module Json {
  import opened Options

  /** A JSON value. Integer and floating-point numbers are told apart, as nlohmann does. */
  datatype Value =
    | Null
    | Bool(b: bool)
    | Int(i: int)
    | Float(f: real)
    | Str(s: string)
    | Arr(elems: seq<Value>)
    | Obj(fields: map<string, Value>)

  /** nlohmann's size(): 0 for null, the element count of a container, 1 for any other scalar. */
  function Size(v: Value): nat
  {
    match v
    case Null => 0
    case Arr(e) => |e|
    case Obj(f) => |f|
    case _ => 1
  }

  /**
   * The non-const operator[](size_t) applied to a copy of a row: None when it throws
   * (the value is neither an array nor null); a position past the end, or any position
   * of null, reads as null (the copy is grown with nulls).
   */
  function Index(row: Value, i: nat): (r: Option<Value>)
    ensures r.Some? <==> row.Arr? || row.Null?
    ensures row.Arr? && i < |row.elems| ==> r == Some(row.elems[i])
    ensures (row.Arr? && i >= |row.elems|) || row.Null? ==> r == Some(Null)
  {
    match row
    case Arr(e) => if i < |e| then Some(e[i]) else Some(Null)
    case Null => Some(Null)
    case _ => None
  }

  /**
   * The non-const operator[](key) applied to a copy of a record: None when it throws
   * (the value is neither an object nor null); a missing key, or any key of null,
   * reads as null (the copy gets a null member).
   */
  function Member(record: Value, key: string): (r: Option<Value>)
    ensures r.Some? <==> record.Obj? || record.Null?
    ensures record.Obj? && key in record.fields ==> r == Some(record.fields[key])
    ensures (record.Obj? && key !in record.fields) || record.Null? ==> r == Some(Null)
  {
    match record
    case Obj(f) => if key in f then Some(f[key]) else Some(Null)
    case Null => Some(Null)
    case _ => None
  }
}
