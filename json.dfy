/**
 * JSON values as `JSONDecoder` and `JSONEncoder` see them, and the decoding rules of the
 * standard library types the Codable wrappers build on: `Bool`, `String`, `Double`,
 * `Optional`, arrays, string-backed enums and keyed containers. A decoder for a type `T` is
 * a total function from a JSON value to the value or the `DecodingError` it throws.
 */
module JsonValues {
  import opened Wrappers

  datatype Json =
    | Null
    | Boolean(b: bool)
    | Number(n: real)
    | Text(s: string)
    | Array(items: seq<Json>)
    | Object(fields: map<string, Json>)

  /** Swift's `DecodingError`, with the name of the expected type and the coding path. */
  datatype DecodeError =
    | TypeMismatch(expected: string, codingPath: seq<string>)
    | ValueNotFound(expected: string, codingPath: seq<string>)
    | KeyNotFound(key: string, codingPath: seq<string>)
    | DataCorrupted(codingPath: seq<string>)

  type Decoder<T> = Json -> Result<T, DecodeError>

  /** A keyed container: the fields of a JSON object. */
  type Fields = map<string, Json>

  /** An error raised while decoding the value under `key`, seen from the container. */
  function Under(key: string, e: DecodeError): (r: DecodeError)
    ensures r.codingPath == [key] + e.codingPath
  {
    e.(codingPath := [key] + e.codingPath)
  }

  /** A single-value `decode(Bool.self)`. */
  function DecodeBool(j: Json): (r: Result<bool, DecodeError>)
    ensures r.Ok? <==> j.Boolean?
  {
    match j
    case Boolean(b) => Ok(b)
    case Null => Err(ValueNotFound("Bool", []))
    case _ => Err(TypeMismatch("Bool", []))
  }

  /** A single-value `decode(String.self)`. */
  function DecodeString(j: Json): (r: Result<string, DecodeError>)
    ensures r.Ok? <==> j.Text?
  {
    match j
    case Text(s) => Ok(s)
    case Null => Err(ValueNotFound("String", []))
    case _ => Err(TypeMismatch("String", []))
  }

  /** A single-value `decode(Double.self)`. */
  function DecodeDouble(j: Json): (r: Result<real, DecodeError>)
    ensures r.Ok? <==> j.Number?
  {
    match j
    case Number(n) => Ok(n)
    case Null => Err(ValueNotFound("Double", []))
    case _ => Err(TypeMismatch("Double", []))
  }

  /** `Optional<T>`'s decoding: null is nil, anything else must decode as `T`. */
  function DecodeOptional<T>(inner: Decoder<T>, j: Json): (r: Result<Option<T>, DecodeError>)
    ensures j == Null ==> r == Ok(None)
    ensures j != Null ==> (r.Ok? <==> inner(j).Ok?)
    ensures j != Null && r.Ok? ==> r.value == Some(inner(j).value)
  {
    if j == Null then Ok(None)
    else match inner(j)
      case Ok(v) => Ok(Some(v))
      case Err(e) => Err(e)
  }

  /**
   * The elements of an unkeyed container decoded in order; the first element that fails
   * fails the whole array with its error.
   */
  function DecodeItems<T>(inner: Decoder<T>, items: seq<Json>): (r: Result<seq<T>, DecodeError>)
    ensures r.Ok? <==> forall i :: 0 <= i < |items| ==> inner(items[i]).Ok?
    ensures r.Ok? ==> |r.value| == |items| && forall i :: 0 <= i < |items| ==> r.value[i] == inner(items[i]).value
    ensures r.Err? ==> exists i :: 0 <= i < |items| && inner(items[i]) == Err(r.error)
  {
    if items == [] then Ok([])
    else match inner(items[0])
      case Err(e) => Err(e)
      case Ok(v) =>
        match DecodeItems(inner, items[1..])
        case Err(e) => Err(e)
        case Ok(rest) => Ok([v] + rest)
  }

  /** A single-value `decode([T].self)`. */
  function DecodeArray<T>(inner: Decoder<T>, j: Json): (r: Result<seq<T>, DecodeError>)
    ensures r.Ok? ==> j.Array? && r == DecodeItems(inner, j.items)
  {
    match j
    case Array(items) => DecodeItems(inner, items)
    case Null => Err(ValueNotFound("Array", []))
    case _ => Err(TypeMismatch("Array", []))
  }

  /**
   * A string-backed enum's synthesised decoding: the raw string, then `init(rawValue:)`; a
   * raw value that names no case is data corruption.
   */
  function DecodeRawEnum<E>(fromRaw: string -> Option<E>, j: Json): (r: Result<E, DecodeError>)
    ensures r.Ok? <==> j.Text? && fromRaw(j.s).Some?
    ensures r.Ok? ==> r.value == fromRaw(j.s).value
  {
    match DecodeString(j)
    case Err(e) => Err(e)
    case Ok(raw) =>
      match fromRaw(raw)
      case Some(e) => Ok(e)
      case None => Err(DataCorrupted([]))
  }

  /** `decode(_:forKey:)`: a missing key is `keyNotFound`; the value's own errors gain the key. */
  function DecodeKey<T>(fields: Fields, key: string, inner: Decoder<T>): (r: Result<T, DecodeError>)
    ensures key !in fields ==> r == Err(KeyNotFound(key, []))
    ensures key in fields ==> (r.Ok? <==> inner(fields[key]).Ok?)
    ensures key in fields && r.Ok? ==> r.value == inner(fields[key]).value
  {
    if key !in fields then Err(KeyNotFound(key, []))
    else match inner(fields[key])
      case Ok(v) => Ok(v)
      case Err(e) => Err(Under(key, e))
  }

  /** `decodeIfPresent(_:forKey:)`: nil for a missing key or a null; otherwise as `decode`. */
  function DecodeIfPresent<T>(fields: Fields, key: string, inner: Decoder<T>): (r: Result<Option<T>, DecodeError>)
    ensures key !in fields || fields[key] == Null ==> r == Ok(None)
    ensures key in fields && fields[key] != Null ==> (r.Ok? <==> inner(fields[key]).Ok?)
    ensures key in fields && fields[key] != Null && r.Ok? ==> r.value == Some(inner(fields[key]).value)
  {
    if key !in fields || fields[key] == Null then Ok(None)
    else match inner(fields[key])
      case Ok(v) => Ok(Some(v))
      case Err(e) => Err(Under(key, e))
  }

  /** `Optional<T>`'s encoding: nil is null, anything else is encoded as `T`. */
  function EncodeOptional<T>(encode: T -> Json, v: Option<T>): Json
  {
    match v
    case None => Null
    case Some(x) => encode(x)
  }

  /** Decoding what `EncodeOptional` wrote gives the optional back whenever `T` round-trips. */
  lemma OptionalRoundTrip<T>(encode: T -> Json, decode: Decoder<T>, v: Option<T>)
    requires forall x :: encode(x) != Null && decode(encode(x)) == Ok(x)
    ensures DecodeOptional(decode, EncodeOptional(encode, v)) == Ok(v)
  {
    if v.Some? {
      assert encode(v.value) != Null && decode(encode(v.value)) == Ok(v.value);
    }
  }

  /** Each element that round-trips on its own makes the array round-trip. */
  lemma {:induction false} ItemsRoundTrip<T>(encode: T -> Json, decode: Decoder<T>, xs: seq<T>)
    requires forall i :: 0 <= i < |xs| ==> decode(encode(xs[i])) == Ok(xs[i])
    ensures DecodeItems(decode, EncodeItems(encode, xs)) == Ok(xs)
  {
    if xs != [] {
      ItemsRoundTrip(encode, decode, xs[1..]);
      assert EncodeItems(encode, xs)[1..] == EncodeItems(encode, xs[1..]);
      assert [xs[0]] + xs[1..] == xs;
    }
  }

  /** The elements written in order into an unkeyed container. */
  function EncodeItems<T>(encode: T -> Json, xs: seq<T>): (r: seq<Json>)
    ensures |r| == |xs| && forall i :: 0 <= i < |xs| ==> r[i] == encode(xs[i])
  {
    if xs == [] then [] else [encode(xs[0])] + EncodeItems(encode, xs[1..])
  }
}
