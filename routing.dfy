/**
 * Deep-link routing: route types registered in order, a URL handed to the first type that
 * recognises it, and the recognised route delivered to the subscribers of its type. A route
 * type is its `handle(url:)` function; the URL is reduced to the parts routing reads.
 */
module Routing {
  import opened Wrappers
  import opened JsonValues

  /** The parts of a `URL` routing reads: `scheme`, `host` and `relativePath`. */
  datatype Url = Url(scheme: Option<string>, host: Option<string>, relativePath: string)

  /** A route type, by identity. */
  type TypeId = nat

  /** A route, with the route type it is an instance of and its `value`. */
  datatype Route<V> = Route(kind: TypeId, value: V)

  /** A registered route type: `T.self` and its `handle(url:)`. */
  datatype RouteType<V> = RouteType(id: TypeId, handle: Url -> Option<Route<V>>)

  // ---------------------------------------------------------------- paths

  function HasPrefix(s: string, prefix: string): bool
  {
    |prefix| <= |s| && s[..|prefix|] == prefix
  }

  /** `sub` occurs in `s` starting at index `i`. */
  ghost predicate OccursAt(s: string, sub: string, i: int)
  {
    0 <= i <= |s| - |sub| && s[i..i + |sub|] == sub
  }

  /** `s.contains(sub)`: `sub` occurs in `s` at some position. */
  function Contains(s: string, sub: string): (r: bool)
    ensures r <==> exists i :: OccursAt(s, sub, i)
    decreases |s|
  {
    if HasPrefix(s, sub) then
      assert OccursAt(s, sub, 0);
      true
    else if s == [] then false
    else
      ContainsShift(s, sub);
      Contains(s[1..], sub)
  }

  /** Without `sub` at its head, `s` contains `sub` exactly when its tail does. */
  lemma ContainsShift(s: string, sub: string)
    requires s != [] && !HasPrefix(s, sub)
    ensures (exists i :: OccursAt(s, sub, i)) <==> (exists i :: OccursAt(s[1..], sub, i))
  {
    forall i | OccursAt(s, sub, i)
      ensures OccursAt(s[1..], sub, i - 1)
    {
      assert i != 0;
      assert s[1..][i - 1..i - 1 + |sub|] == s[i..i + |sub|];
    }
    forall i | OccursAt(s[1..], sub, i)
      ensures OccursAt(s, sub, i + 1)
    {
      assert s[1..][i..i + |sub|] == s[i + 1..i + 1 + |sub|];
    }
  }

  /**
   * `getPath(from:)`: with a scheme and a host, where the scheme contains "http" or is the
   * app's bundle identifier, the host becomes the first path segment; otherwise the
   * relative path as it is. The optional result is never nil.
   */
  function GetPath(url: Url, bundleIdentifier: Option<string>): (r: Option<string>)
    ensures r.Some?
    ensures url.scheme.Some? && url.host.Some?
            && (Contains(url.scheme.value, "http") || Some(url.scheme.value) == bundleIdentifier)
            ==> r.value == "/" + url.host.value + url.relativePath
    ensures url.host.None? || url.scheme.None? ==> r.value == url.relativePath
    ensures url.scheme.Some? && !Contains(url.scheme.value, "http") && Some(url.scheme.value) != bundleIdentifier
            ==> r.value == url.relativePath
  {
    match (url.scheme, url.host)
    case (Some(scheme), Some(host)) =>
      if Contains(scheme, "http") || Some(scheme) == bundleIdentifier then Some("/" + host + url.relativePath)
      else Some(url.relativePath)
    case _ => Some(url.relativePath)
  }

  /** Whatever the branch, the path ends with the relative path. */
  lemma PathEndsWithRelativePath(url: Url, bundleIdentifier: Option<string>)
    ensures var p := GetPath(url, bundleIdentifier).value;
      |url.relativePath| <= |p| && p[|p| - |url.relativePath|..] == url.relativePath
  {
    var p := GetPath(url, bundleIdentifier).value;
    if p != url.relativePath {
      assert p == ("/" + url.host.value) + url.relativePath;
    }
  }

  // ---------------------------------------------------------------- dispatch

  /** The route the first registered type that recognises `url` makes of it. */
  function FirstMatch<V(==)>(types: seq<RouteType<V>>, url: Url): (r: Option<Route<V>>)
    ensures r.Some? <==> exists i :: 0 <= i < |types| && types[i].handle(url).Some?
    ensures r.Some? ==> exists i :: 0 <= i < |types| && r == types[i].handle(url)
                                    && forall k :: 0 <= k < i ==> types[k].handle(url).None?
  {
    if types == [] then None
    else match types[0].handle(url)
      case Some(route) => Some(route)
      case None =>
        var r := FirstMatch(types[1..], url);
        assert forall i :: 1 <= i < |types| ==> types[i] == types[1..][i - 1];
        if r.Some? then
          var i :| 0 <= i < |types[1..]| && r == types[1..][i].handle(url)
                   && forall k :: 0 <= k < i ==> types[1..][k].handle(url).None?;
          assert r == types[i + 1].handle(url) && forall k :: 0 <= k < i + 1 ==> types[k].handle(url).None?;
          r
        else r
  }

  /** The values a `publisher(for: T)` subscriber receives of the routes sent: those of type `T`, in order. */
  function Published<V(==)>(sent: seq<Route<V>>, kind: TypeId): (r: seq<V>)
    ensures |r| <= |sent|
    ensures forall v :: v in r ==> Route(kind, v) in sent
    ensures forall i :: 0 <= i < |sent| && sent[i].kind == kind ==> sent[i].value in r
  {
    if sent == [] then []
    else (if sent[0].kind == kind then [sent[0].value] else []) + Published(sent[1..], kind)
  }

  lemma {:induction false} PublishedConcat<V>(a: seq<Route<V>>, b: seq<Route<V>>, kind: TypeId)
    ensures Published(a + b, kind) == Published(a, kind) + Published(b, kind)
  {
    if a != [] {
      assert (a + b)[0] == a[0] && (a + b)[1..] == a[1..] + b;
      PublishedConcat(a[1..], b, kind);
      var head := if a[0].kind == kind then [a[0].value] else [];
      calc {
        Published(a + b, kind);
        head + Published(a[1..] + b, kind);
        head + (Published(a[1..], kind) + Published(b, kind));
        (head + Published(a[1..], kind)) + Published(b, kind);
      }
    } else {
      assert a + b == b;
    }
  }

  function AsSeq<T>(o: Option<T>): seq<T>
  {
    match o
    case Some(x) => [x]
    case None => []
  }

  /** The text under userInfo["data"]["url"], when "data" is an object and its "url" a string. */
  function DataUrlText(userInfo: Fields): (r: Option<string>)
    ensures r.Some? <==> "data" in userInfo && userInfo["data"].Object? && "url" in userInfo["data"].fields
                         && userInfo["data"].fields["url"].Text?
    ensures r.Some? ==> r.value == userInfo["data"].fields["url"].s
  {
    if "data" in userInfo && userInfo["data"].Object? && "url" in userInfo["data"].fields
       && userInfo["data"].fields["url"].Text?
    then Some(userInfo["data"].fields["url"].s) else None
  }

  /** The text under userInfo["url"], when it is a string. */
  function UrlText(userInfo: Fields): (r: Option<string>)
    ensures r.Some? <==> "url" in userInfo && userInfo["url"].Text?
    ensures r.Some? ==> r.value == userInfo["url"].s
  {
    if "url" in userInfo && userInfo["url"].Text? then Some(userInfo["url"].s) else None
  }

  /**
   * The values of userInfo["data"]["url"], or failing that userInfo["url"], that parse as
   * a URL: the first wins, and a data URL that does not parse gives way to the other.
   */
  function NotificationUrl(userInfo: Fields, parse: string -> Option<Url>): (r: Option<Url>)
    ensures DataUrlText(userInfo).Some? && parse(DataUrlText(userInfo).value).Some?
            ==> r == parse(DataUrlText(userInfo).value)
    ensures !(DataUrlText(userInfo).Some? && parse(DataUrlText(userInfo).value).Some?)
            && UrlText(userInfo).Some? && parse(UrlText(userInfo).value).Some?
            ==> r == parse(UrlText(userInfo).value)
    ensures r.None? <==> (DataUrlText(userInfo).None? || parse(DataUrlText(userInfo).value).None?)
                         && (UrlText(userInfo).None? || parse(UrlText(userInfo).value).None?)
  {
    if "data" in userInfo && userInfo["data"].Object? && "url" in userInfo["data"].fields
       && userInfo["data"].fields["url"].Text? && parse(userInfo["data"].fields["url"].s).Some?
    then parse(userInfo["data"].fields["url"].s)
    else if "url" in userInfo && userInfo["url"].Text? && parse(userInfo["url"].s).Some?
    then parse(userInfo["url"].s)
    else None
  }

  class RoutingManager<V(==)> {
    var allRouteTypes: seq<RouteType<V>>
    /** Every route sent on `subject`, in order; the main-queue hop is taken at once. */
    var sent: seq<Route<V>>

    constructor ()
      ensures allRouteTypes == [] && sent == []
    {
      allRouteTypes := [];
      sent := [];
    }

    /** `registerRoutes(_:)`: the types are appended in order, duplicates kept. */
    method RegisterRoutes(routeTypes: seq<RouteType<V>>)
      modifies this
      ensures allRouteTypes == old(allRouteTypes) + routeTypes
      ensures sent == old(sent)
    {
      allRouteTypes := allRouteTypes + routeTypes;
    }

    /**
     * `handle(url:)`: the registered types are asked in order; the first route is sent and
     * the answer is true; when none answers, nothing is sent and the answer is false.
     */
    method Handle(url: Url) returns (handled: bool)
      modifies this
      ensures allRouteTypes == old(allRouteTypes)
      ensures handled <==> FirstMatch(allRouteTypes, url).Some?
      ensures sent == old(sent) + AsSeq(FirstMatch(allRouteTypes, url))
    {
      var i := 0;
      while i < |allRouteTypes|
        invariant 0 <= i <= |allRouteTypes| && allRouteTypes == old(allRouteTypes) && sent == old(sent)
        invariant FirstMatch(allRouteTypes, url) == FirstMatch(allRouteTypes[i..], url)
      {
        assert allRouteTypes[i..][0] == allRouteTypes[i] && allRouteTypes[i..][1..] == allRouteTypes[i + 1..];
        var route := allRouteTypes[i].handle(url);
        if route.Some? {
          sent := sent + [route.value];
          return true;
        }
        i := i + 1;
      }
      return false;
    }

    /** `handleNotification(response:)`: the notification's URL, if one parses, is handled. */
    method HandleNotification(userInfo: Fields, parse: string -> Option<Url>)
      modifies this
      ensures allRouteTypes == old(allRouteTypes)
      ensures sent == old(sent) + (match NotificationUrl(userInfo, parse)
                                   case Some(url) => AsSeq(FirstMatch(allRouteTypes, url))
                                   case None => [])
    {
      if "data" in userInfo && userInfo["data"].Object? && "url" in userInfo["data"].fields
         && userInfo["data"].fields["url"].Text? && parse(userInfo["data"].fields["url"].s).Some? {
        var url := parse(userInfo["data"].fields["url"].s).value;
        var _ := Handle(url);
      } else if "url" in userInfo && userInfo["url"].Text? && parse(userInfo["url"].s).Some? {
        var url := parse(userInfo["url"].s).value;
        var _ := Handle(url);
      }
    }
  }

  // ---------------------------------------------------------------- properties

  /** One call of `handle(url:)` delivers at most one value, and only to subscribers of the matching type. */
  lemma HandleDeliversAtMostOne<V>(types: seq<RouteType<V>>, url: Url, before: seq<Route<V>>, kind: TypeId)
    ensures var delivered := Published(AsSeq(FirstMatch(types, url)), kind);
      Published(before + AsSeq(FirstMatch(types, url)), kind) == Published(before, kind) + delivered
      && |delivered| <= 1
      && (delivered != [] <==> FirstMatch(types, url).Some? && FirstMatch(types, url).value.kind == kind)
  {
    var m := AsSeq(FirstMatch(types, url));
    PublishedConcat(before, m, kind);
    if m != [] {
      assert m[1..] == [];
    }
  }

  /** A route type that recognises paths beginning with `prefix`, with the path as its value. */
  function PrefixRoute(id: TypeId, prefix: string, bundleIdentifier: Option<string>): RouteType<string>
  {
    RouteType(id, url => var p := GetPath(url, bundleIdentifier).value;
                         if HasPrefix(p, prefix) then Some(Route(id, p)) else None)
  }

  /**
   * "app://dashboard" with a dashboard and a foo route registered: the dashboard route
   * takes it with the value "/dashboard" only when the app's bundle identifier is "app";
   * under any other identifier the path is empty and nothing handles the URL.
   */
  lemma DashboardCase(bundleIdentifier: Option<string>)
    ensures var types := [PrefixRoute(0, "/dashboard", bundleIdentifier), PrefixRoute(1, "/foo", bundleIdentifier)];
      var url := Url(Some("app"), Some("dashboard"), "");
      (bundleIdentifier == Some("app") ==> FirstMatch(types, url) == Some(Route(0, "/dashboard")))
      && (bundleIdentifier != Some("app") ==> FirstMatch(types, url) == None)
  {
    var url := Url(Some("app"), Some("dashboard"), "");
    assert !Contains("app", "http");
    if bundleIdentifier == Some("app") {
      assert GetPath(url, bundleIdentifier).value == "/dashboard";
    } else {
      assert GetPath(url, bundleIdentifier).value == "";
    }
  }
}
