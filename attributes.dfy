/**
 * Attribute derivation in `_metrics_middleware` and the two cardinality
 * views declared in `_build_meter_provider`.
 *
 * The attribute set is the three-key map {http.method, http.route,
 * http.status_code}. The route is the matched route's template path when the
 * request scope holds a route object with a `path`, and the literal URL path
 * otherwise. A view keeps, for the instrument it names, only the attribute
 * keys it lists; the filtering itself is done by the metrics SDK, modelled
 * here as a restriction of the attribute map.
 */
module Attributes {
  import opened Wrappers

  const MethodKey: string := "http.method"
  const RouteKey: string := "http.route"
  const StatusKey: string := "http.status_code"

  /** The fixed attribute vocabulary. */
  const Vocabulary: set<string> := {MethodKey, RouteKey, StatusKey}

  /** An attribute value: the source uses strings and integers. */
  datatype AttrValue = Text(text: string) | Number(number: int)

  type AttributeSet = map<string, AttrValue>

  /** What `request.scope.get("route")` holds. */
  datatype ScopeRoute =
    | NoRoute                   // key absent or None: no route matched
    | RouteWithPath(path: string) // a matched route: `path` is its template
    | RouteWithoutPath          // a route object with no `path` attribute

  datatype Request = Request(verb: string, urlPath: string, route: ScopeRoute)

  /** The response the wrapped handler produced; the body is opaque here. */
  datatype Response = Response(statusCode: int, body: seq<int>)

  /** `getattr(route, "path", request.url.path)`. */
  function RoutePath(req: Request): (p: string)
    ensures req.route.RouteWithPath? ==> p == req.route.path
    ensures !req.route.RouteWithPath? ==> p == req.urlPath
  {
    match req.route
    case RouteWithPath(template) => template
    case _ => req.urlPath
  }

  /** The attribute map built for one request and its response (`verb` is `request.method`). */
  function DeriveAttributes(req: Request, resp: Response): (attrs: AttributeSet)
    ensures attrs.Keys == Vocabulary
    ensures attrs[MethodKey] == Text(req.verb)
    ensures attrs[StatusKey] == Number(resp.statusCode)
    ensures req.route.RouteWithPath? ==> attrs[RouteKey] == Text(req.route.path)
    ensures !req.route.RouteWithPath? ==> attrs[RouteKey] == Text(req.urlPath)
  {
    map[MethodKey := Text(req.verb), RouteKey := Text(RoutePath(req)), StatusKey := Number(resp.statusCode)]
  }

  /**
   * A matched route hides the concrete path: two requests matched to the same
   * template, with the same method and status, get the same attribute set
   * whatever their URL paths.
   */
  lemma TemplateHidesConcretePath(r1: Request, r2: Request, resp: Response)
    requires r1.route.RouteWithPath? && r1.route == r2.route && r1.verb == r2.verb
    ensures DeriveAttributes(r1, resp) == DeriveAttributes(r2, resp)
  {
  }

  /**
   * Without a matched template the literal path reaches the label: requests
   * that differ only in their URL paths get different attribute sets.
   */
  lemma UnmatchedPathReachesLabel(r1: Request, r2: Request, resp: Response)
    requires !r1.route.RouteWithPath? && !r2.route.RouteWithPath?
    requires r1.urlPath != r2.urlPath
    ensures DeriveAttributes(r1, resp) != DeriveAttributes(r2, resp)
  {
  }

  /** A request to /items/42 matched to /items/{id} is labelled with the template. */
  lemma ItemsRouteExample(resp: Response)
    ensures DeriveAttributes(Request("GET", "/items/42", RouteWithPath("/items/{id}")), resp)[RouteKey]
         == Text("/items/{id}")
  {
  }

  // ---------------------------------------------------------------------
  // Views

  /** A view: an instrument name and the attribute keys kept for it. */
  datatype View = View(instrumentName: string, attributeKeys: seq<string>)

  const RequestsInstrument: string := "http.server.requests"
  const DurationInstrument: string := "http.server.duration"

  /** The two views the provider is built with. */
  const Views: seq<View> := [
    View(DurationInstrument, [MethodKey, RouteKey, StatusKey]),
    View(RequestsInstrument, [MethodKey, RouteKey, StatusKey])
  ]

  /**
   * The first view that names the instrument, if any. The metrics SDK applies
   * every matching view, each as a stream of its own; for `Views`, where each
   * instrument is named by exactly one view, that is the same thing.
   */
  function ViewFor(views: seq<View>, name: string): (v: Option<View>)
    ensures v.Some? ==> v.value in views && v.value.instrumentName == name
    ensures v.None? ==> forall i :: 0 <= i < |views| ==> views[i].instrumentName != name
  {
    if views == [] then None
    else if views[0].instrumentName == name then Some(views[0])
    else ViewFor(views[1..], name)
  }

  /** Keeps only the attributes whose key is in `keys`. */
  function Restrict(attrs: AttributeSet, keys: set<string>): (r: AttributeSet)
    ensures r.Keys == attrs.Keys * keys
    ensures forall k :: k in r ==> r[k] == attrs[k]
  {
    map k | k in attrs && k in keys :: attrs[k]
  }

  /**
   * The attributes an instrument aggregates under: restricted to its view's
   * keys when a view names it, all of them otherwise.
   */
  function Retained(views: seq<View>, name: string, attrs: AttributeSet): (r: AttributeSet)
    ensures ViewFor(views, name).Some? ==>
      && r.Keys == attrs.Keys * (set k | k in ViewFor(views, name).value.attributeKeys)
      && forall k :: k in r ==> r[k] == attrs[k]
    ensures ViewFor(views, name).None? ==> r == attrs
  {
    match ViewFor(views, name)
    case Some(v) => Restrict(attrs, set k | k in v.attributeKeys)
    case None => attrs
  }

  /** Both instruments of the middleware are named by a view over the vocabulary. */
  lemma ViewsCoverInstruments(name: string)
    requires name == RequestsInstrument || name == DurationInstrument
    ensures ViewFor(Views, name).Some?
    ensures (set k | k in ViewFor(Views, name).value.attributeKeys) == Vocabulary
  {
  }

  /** The cardinality bound: whatever the call site supplies, only vocabulary keys are kept. */
  lemma RetainedWithinVocabulary(name: string, attrs: AttributeSet)
    requires name == RequestsInstrument || name == DurationInstrument
    ensures Retained(Views, name, attrs).Keys == attrs.Keys * Vocabulary
    ensures forall k :: k in Retained(Views, name, attrs) ==> Retained(Views, name, attrs)[k] == attrs[k]
  {
    ViewsCoverInstruments(name);
  }

  /** The views drop nothing from the attribute set the middleware derives. */
  lemma ViewsKeepDerived(name: string, req: Request, resp: Response)
    requires name == RequestsInstrument || name == DurationInstrument
    ensures Retained(Views, name, DeriveAttributes(req, resp)) == DeriveAttributes(req, resp)
  {
  }
}
