/**
 * Replacing a query parameter of a URL. The query is the list of (name, value) items of
 * the query component (section 3.4 of RFC 3986) as `URLComponents` exposes it. Splitting a
 * URL into components and rebuilding it are Foundation's and are parameters: `components`
 * is `URLComponents(url:resolvingAgainstBaseURL:)`, `urlOf` is `components.url`; both may
 * fail. The parts of the URL other than the query are `rest`.
 */
module QueryParameters {
  import opened Wrappers
  import opened Seqs

  datatype QueryItem = QueryItem(name: string, value: Option<string>)

  datatype Components = Components(rest: string, queryItems: Option<seq<QueryItem>>)

  /** The filter that keeps the items with another name than `key`. */
  function NotNamed(key: string): QueryItem -> bool
  {
    (item: QueryItem) => item.name != key
  }

  /**
   * The new query items: every item named `key` removed, the others in their order, and
   * `key=value` appended. Exactly one item is named `key`, it is the last, and it carries
   * `value`.
   */
  function WithParameter(items: seq<QueryItem>, key: string, value: string): (r: seq<QueryItem>)
    ensures r != [] && r[|r| - 1] == QueryItem(key, Some(value))
    ensures forall i :: 0 <= i < |r| && r[i].name == key ==> i == |r| - 1
    ensures Filter(r, NotNamed(key)) == Filter(items, NotNamed(key))
  {
    var kept := Filter(items, NotNamed(key));
    var added := [QueryItem(key, Some(value))];
    var r := kept + added;
    forall i | 0 <= i < |kept|
      ensures r[i].name != key
    {
      assert r[i] == kept[i] && kept[i] in kept;
    }
    FilterConcat(kept, added, NotNamed(key));
    FilterIdempotent(items, NotNamed(key));
    assert Filter(added, NotNamed(key)) == Filter(added[1..], NotNamed(key));
    r
  }

  /** Setting the same parameter again changes nothing. */
  lemma WithParameterIdempotent(items: seq<QueryItem>, key: string, value: string)
    ensures WithParameter(WithParameter(items, key, value), key, value) == WithParameter(items, key, value)
  {
    var once := WithParameter(items, key, value);
    var kept := Filter(items, NotNamed(key));
    FilterConcat(kept, [QueryItem(key, Some(value))], NotNamed(key));
    FilterIdempotent(items, NotNamed(key));
    var added := [QueryItem(key, Some(value))];
    assert Filter(added, NotNamed(key)) == Filter(added[1..], NotNamed(key));
  }

  /** The components with the parameter set; missing query items count as none. */
  function SetParameter(c: Components, key: string, value: string): (r: Components)
    ensures r.rest == c.rest && r.queryItems == Some(WithParameter(c.queryItems.GetOr([]), key, value))
  {
    c.(queryItems := Some(WithParameter(c.queryItems.GetOr([]), key, value)))
  }

  /**
   * What `appendQueryParameter(key:value:)` makes of `url`: the URL rebuilt from components
   * with the parameter set, or the URL unchanged when it does not split into components
   * or the new components do not make a URL.
   */
  function WithQueryParameter<U>(url: U, key: string, value: string,
                                 components: U -> Option<Components>, urlOf: Components -> Option<U>): (r: U)
    ensures components(url).None? ==> r == url
    ensures components(url).Some? && urlOf(SetParameter(components(url).value, key, value)).None? ==> r == url
    ensures components(url).Some? && urlOf(SetParameter(components(url).value, key, value)).Some?
            ==> r == urlOf(SetParameter(components(url).value, key, value)).value
  {
    match components(url)
    case None => url
    case Some(c) => urlOf(SetParameter(c, key, value)).GetOr(url)
  }

  /**
   * When building a URL from components and splitting it again gives the components back,
   * the new URL's query holds the parameter exactly once, as its last item, and the other
   * items as they were.
   */
  lemma ResultHasParameter<U>(url: U, key: string, value: string,
                              components: U -> Option<Components>, urlOf: Components -> Option<U>)
    requires components(url).Some?
    requires var c := SetParameter(components(url).value, key, value);
      urlOf(c).Some? && components(urlOf(c).value) == Some(c)
    ensures var r := WithQueryParameter(url, key, value, components, urlOf);
      components(r).Some? && components(r).value.queryItems.Some?
      && var items := components(r).value.queryItems.value;
      items != [] && items[|items| - 1] == QueryItem(key, Some(value))
      && (forall i :: 0 <= i < |items| && items[i].name == key ==> i == |items| - 1)
      && Filter(items, NotNamed(key)) == Filter(components(url).value.queryItems.GetOr([]), NotNamed(key))
  {
  }

  /** Applying the same key and value twice gives the URL applying them once gives. */
  lemma WithQueryParameterIdempotent<U>(url: U, key: string, value: string,
                                        components: U -> Option<Components>, urlOf: Components -> Option<U>)
    requires components(url).Some? ==>
      var c := SetParameter(components(url).value, key, value);
      urlOf(c).Some? ==> components(urlOf(c).value) == Some(c)
    ensures var once := WithQueryParameter(url, key, value, components, urlOf);
      WithQueryParameter(once, key, value, components, urlOf) == once
  {
    if components(url).Some? {
      var c := SetParameter(components(url).value, key, value);
      if urlOf(c).Some? {
        WithParameterIdempotent(components(url).value.queryItems.GetOr([]), key, value);
        assert SetParameter(c, key, value) == c;
      }
    }
  }

  /** A variable holding a URL, the receiver of the mutating and the copying form. */
  class UrlVariable<U> {
    var url: U

    constructor (url: U)
      ensures this.url == url
    {
      this.url := url;
    }

    /** `appendQueryParameter(key:value:)`: `self` is replaced by the rebuilt URL, if any. */
    method AppendQueryParameter(key: string, value: string,
                                components: U -> Option<Components>, urlOf: Components -> Option<U>)
      modifies this
      ensures url == WithQueryParameter(old(url), key, value, components, urlOf)
    {
      var parsed := components(url);
      if parsed.None? {
        return;
      }
      var queryItems := Filter(parsed.value.queryItems.GetOr([]), NotNamed(key));
      queryItems := queryItems + [QueryItem(key, Some(value))];
      var c := parsed.value.(queryItems := Some(queryItems));
      var newUrl := urlOf(c);
      if newUrl.Some? {
        url := newUrl.value;
      }
    }

    /** `appendingQueryParameter(key:value:)`: a copy is changed and returned; this variable is not. */
    method AppendingQueryParameter(key: string, value: string,
                                   components: U -> Option<Components>, urlOf: Components -> Option<U>)
      returns (r: U)
      ensures r == WithQueryParameter(url, key, value, components, urlOf)
    {
      var copy := new UrlVariable(url);
      copy.AppendQueryParameter(key, value, components, urlOf);
      r := copy.url;
    }
  }
}
