/**
 * The keyed-container overloads that read and write a `URL` as its string. `URL(string:)`
 * is Foundation's parser and is a parameter here (`parse`), as is `absoluteString`.
 */
module UrlCodables {
  import opened Wrappers
  import opened JsonValues

  /**
   * `decode(URL.self, forKey:)`: the string under `key`, whose own errors propagate; a
   * string the parser rejects is a type mismatch for `URL` at `[key]`.
   */
  function DecodeUrl<U>(fields: Fields, key: string, parse: string -> Option<U>): (r: Result<U, DecodeError>)
    ensures key !in fields ==> r == Err(KeyNotFound(key, []))
    ensures key in fields && !fields[key].Text? ==> r == Err(Under(key, DecodeString(fields[key]).error))
    ensures key in fields && fields[key].Text? && parse(fields[key].s).Some? ==> r == Ok(parse(fields[key].s).value)
    ensures key in fields && fields[key].Text? && parse(fields[key].s).None? ==> r == Err(TypeMismatch("URL", [key]))
  {
    match DecodeKey(fields, key, DecodeString)
    case Err(e) => Err(e)
    case Ok(decodedValue) =>
      match parse(decodedValue)
      case Some(url) => Ok(url)
      case None => Err(TypeMismatch("URL", [key]))
  }

  /**
   * `decodeIfPresent(URL.self, forKey:)`: nil for a missing key, a null or a string the
   * parser rejects; a value that is not a string still throws.
   */
  function DecodeUrlIfPresent<U>(fields: Fields, key: string, parse: string -> Option<U>): (r: Result<Option<U>, DecodeError>)
    ensures key !in fields || fields[key] == Null ==> r == Ok(None)
    ensures key in fields && fields[key].Text? ==> r == Ok(parse(fields[key].s))
    ensures key in fields && fields[key] != Null && !fields[key].Text? ==> r.Err?
  {
    match DecodeIfPresent(fields, key, DecodeString)
    case Err(e) => Err(e)
    case Ok(None) => Ok(None)
    case Ok(Some(decodedValue)) =>
      match parse(decodedValue)
      case Some(url) => Ok(Some(url))
      case None => Ok(None)
  }

  /** `encode(_: URL, forKey:)`: the absolute string under `key`. */
  function EncodeUrl<U>(fields: Fields, key: string, url: U, absoluteString: U -> string): (r: Fields)
    ensures r == fields[key := Text(absoluteString(url))]
  {
    fields[key := Text(absoluteString(url))]
  }

  /** `encodeIfPresent(_: URL?, forKey:)`: nothing at all for nil. */
  function EncodeUrlIfPresent<U>(fields: Fields, key: string, url: Option<U>, absoluteString: U -> string): (r: Fields)
    ensures url.None? ==> r == fields
    ensures url.Some? ==> r == EncodeUrl(fields, key, url.value, absoluteString)
  {
    match url
    case None => fields
    case Some(u) => EncodeUrl(fields, key, u, absoluteString)
  }

  // ---------------------------------------------------------------- properties

  /** A URL whose absolute string parses back to it is read back from what was written. */
  lemma RoundTrip<U>(fields: Fields, key: string, url: U, parse: string -> Option<U>, absoluteString: U -> string)
    requires parse(absoluteString(url)) == Some(url)
    ensures DecodeUrl(EncodeUrl(fields, key, url, absoluteString), key, parse) == Ok(url)
    ensures DecodeUrlIfPresent(EncodeUrl(fields, key, url, absoluteString), key, parse) == Ok(Some(url))
  {
  }

  /** An optional URL written into a container without the key is read back, nil included. */
  lemma OptionalRoundTrip<U>(fields: Fields, key: string, url: Option<U>, parse: string -> Option<U>, absoluteString: U -> string)
    requires key !in fields
    requires url.Some? ==> parse(absoluteString(url.value)) == Some(url.value)
    ensures DecodeUrlIfPresent(EncodeUrlIfPresent(fields, key, url, absoluteString), key, parse) == Ok(url)
  {
  }

  /** Where the required form throws for a rejected string, the optional form gives nil. */
  lemma RejectedStringDiffers<U>(fields: Fields, key: string, parse: string -> Option<U>)
    requires key in fields && fields[key].Text? && parse(fields[key].s).None?
    ensures DecodeUrl(fields, key, parse).Err? && DecodeUrlIfPresent(fields, key, parse) == Ok(None)
  {
  }
}
