/** JSON values as serde_json sees them, and the integer widths the wire
    structs use. Shared by the envelope, contact and client modules. */
module Json {

  datatype Option<T> = None | Some(value: T)

  /** A JSON value (serde_json::Value). Numbers are integers only. */
  datatype Value =
    | Null
    | Bool(b: bool)
    | Number(n: int)
    | String(s: string)
    | Array(items: seq<Value>)
    | Object(fields: map<string, Value>)

  /** Rust's `usize` on a 64-bit target: [0, 2^64). */
  const USIZE_LIMIT: int := 0x1_0000_0000_0000_0000

  /** Rust's `i64`: [-2^63, 2^63). */
  const I64_MIN: int := -0x8000_0000_0000_0000
  const I64_LIMIT: int := 0x8000_0000_0000_0000

  predicate IsUsize(n: int) { 0 <= n < USIZE_LIMIT }

  predicate IsI64(n: int) { I64_MIN <= n < I64_LIMIT }

  /** Decoding a `usize` field: a number in range, anything else fails. */
  function DecodeUsize(v: Value): (r: Option<nat>)
    ensures r.Some? <==> v.Number? && IsUsize(v.n)
    ensures r.Some? ==> r.value == v.n
  {
    if v.Number? && IsUsize(v.n) then Some(v.n) else None
  }

  /** Decoding an `i64` field. */
  function DecodeI64(v: Value): (r: Option<int>)
    ensures r.Some? <==> v.Number? && IsI64(v.n)
    ensures r.Some? ==> IsI64(r.value) && Number(r.value) == v
  {
    if v.Number? && IsI64(v.n) then Some(v.n) else None
  }

  /** Decoding a `String` field. */
  function DecodeString(v: Value): (r: Option<string>)
    ensures r.Some? <==> v.String?
    ensures r.Some? ==> String(r.value) == v
  {
    if v.String? then Some(v.s) else None
  }

  /** Decoding a `bool` field. */
  function DecodeBool(v: Value): (r: Option<bool>)
    ensures r.Some? <==> v.Bool?
    ensures r.Some? ==> Bool(r.value) == v
  {
    if v.Bool? then Some(v.b) else None
  }

  /** The value a struct field of type Option<U> receives from `key` of
      `fields`: serde's derived Deserialize reads a missing key or `null`
      as None. The outer None is a decoding failure. */
  function DecodeOptional<U>(fields: map<string, Value>, key: string, decode: Value -> Option<U>): (r: Option<Option<U>>)
    ensures (key !in fields || fields[key] == Null) ==> r == Some(None)
    ensures key in fields && fields[key] != Null ==>
      (r.Some? <==> decode(fields[key]).Some?) &&
      (r.Some? ==> r.value == decode(fields[key]))
  {
    if key !in fields || fields[key] == Null then Some(None)
    else match decode(fields[key])
      case None => None
      case Some(u) => Some(Some(u))
  }

  /** How serde encodes an Option<U> field that is not skipped: None is
      null, Some(x) is x's encoding. */
  function EncodeOptional<U>(o: Option<U>, encode: U -> Value): (v: Value)
    ensures o.None? ==> v == Null
    ensures o.Some? ==> v == encode(o.value)
  {
    match o
    case None => Null
    case Some(u) => encode(u)
  }

  /** No field name occurs twice. */
  predicate Distinct(names: seq<string>)
  {
    forall i, j :: 0 <= i < j < |names| ==> names[i] != names[j]
  }

  /** The object whose i-th field name maps to the i-th item. */
  function Zip(names: seq<string>, items: seq<Value>): (m: map<string, Value>)
    requires |names| == |items|
    ensures forall i :: 0 <= i < |names| ==> names[i] in m
    ensures Distinct(names) ==> forall i :: 0 <= i < |names| ==> m[names[i]] == items[i]
    decreases |names|
  {
    if |names| == 0 then map[]
    else
      var rest := Zip(names[1..], items[1..]);
      assert forall i :: 1 <= i < |names| ==> names[i] == names[1..][i - 1];
      rest[names[0] := items[0]]
  }

  /** The fields a derived Deserialize of a struct without a flattened field
      reads (`names` in declaration order): an object's own fields, or an
      array holding exactly one element per field, in that order. Nothing
      else is a struct. */
  function StructFields(v: Value, names: seq<string>): (r: Option<map<string, Value>>)
    ensures v.Object? ==> r == Some(v.fields)
    ensures v.Array? ==> (r.Some? <==> |v.items| == |names|)
    ensures v.Array? && r.Some? ==> forall i :: 0 <= i < |names| ==> names[i] in r.value
    ensures v.Array? && r.Some? && Distinct(names) ==>
      forall i :: 0 <= i < |names| ==> r.value[names[i]] == v.items[i]
    ensures !v.Object? && !v.Array? ==> r.None?
  {
    match v
    case Object(fields) => Some(fields)
    case Array(items) => if |items| == |names| then Some(Zip(names, items)) else None
    case _ => None
  }
}
