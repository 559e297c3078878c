# Open WebUI telemetry metrics, modelled in Dafny

This project models the measurement logic of Open WebUI's OpenTelemetry
metrics bootstrap (`backend/open_webui/utils/telemetry/metrics.py`):

- **Active-user gauge** (`active_users.dfy`, module `ActiveUsers`): the
  callback of the `active_users_last_hour` observable gauge. It walks the user
  listing, counts the users whose `last_active_at` passes Python's
  `isinstance(_, int)` check and is at least `now - 3600`, and reports exactly
  one observation. A listing that is not a dictionary or has no `"users"` key
  yields 0. Any exception yields one observation of 0: `get_users` raising, a
  `users` value that cannot be iterated, or a user that does not encode to a
  dictionary. The counting loop is a method proved against the function
  `CountActive`, and the lemmas are about that function.
- **Attribute derivation and views** (`attributes.dfy`, module `Attributes`):
  the three-key attribute map `{http.method, http.route, http.status_code}`.
  The route is the matched route's template when the request scope holds a
  route with a `path`, and the literal URL path otherwise. The module also
  holds the two views the meter provider is built with. Each view restricts
  one instrument's attributes to the same three keys.
- **Per-request recording** (`request_metrics.dfy`, module `RequestMetrics`):
  the `http.server.requests` counter is a map from attribute set to running
  sum. The `http.server.duration` histogram is a sequence of samples. Both live
  in the class `Instruments`. The middleware adds 1 to the counter and records
  one sample, both under the derived attribute set. It returns the response
  unchanged. The class invariant says the two instruments agree key by key,
  and that the counter's total equals the number of recorded requests.

`wrappers.dfy` holds the `Option` type.

Collaborators are parameters:
- the outcome of `get_users` is the `Fetch` value;
- the clock reading `int(time.time())` is `now`;
- the result of `call_next` is a `HandlerResult`;
- the elapsed time is an opaque non-negative `Millis`.

Modelling choices that follow the code:
- A Python `bool` passes `isinstance(_, int)`, so a boolean `last_active_at`
  is compared as 0 or 1 (`BoolStamp`).
- `getattr(route, "path", request.url.path)` falls back to the URL path in two
  cases: when no route is in scope, and when the route object has no `path`
  attribute (`RouteWithoutPath`).
- When the handler raises, the middleware records nothing and the exception
  propagates (`HandlerRaised`).

Behaviour of the code worth noting:
- On failure the callback reports one observation of 0, not an empty list
  of observations (metrics.py:113-114).
- The callback has no timeout around `get_users`. A hang is not modelled.
- Unmatched routes pass the raw URL path into `http.route`: the literal path
  is the explicit default of `getattr(route, "path", request.url.path)` at
  metrics.py:132, so this is the code's stated behaviour, not a defect. The
  lemma `Attributes.UnmatchedPathReachesLabel` states the resulting
  cardinality leak.

## Model

| member | source | states |
|---|---|---|
| `ActiveUsers.CountActive` | backend/open_webui/utils/telemetry/metrics.py:105-111 | the active count never exceeds the number of users |
| `ActiveUsers.CountActiveUsers` | backend/open_webui/utils/telemetry/metrics.py:103-111 | the loop stops with a failure at the first user that does not encode to a dictionary; otherwise it yields the number of users whose stamp is an int at least `now - 3600` |
| `ActiveUsers.ActiveUsersLastHour` | backend/open_webui/utils/telemetry/metrics.py:96-114 | the callback always returns exactly one observation, whose value is the reported count or 0 on any failure |
| `ActiveUsers.Iterated` | backend/open_webui/utils/telemetry/metrics.py:101-106 | no users to iterate exactly when `get_users` raises or the `"users"` value cannot be iterated; an empty listing when the result is not a dict or lacks `"users"`; otherwise the listed users |
| `ActiveUsers.Reported` | backend/open_webui/utils/telemetry/metrics.py:101-114 | 0 when `get_users` raises, when the listing is not a dict, when `"users"` is missing, when the `"users"` value cannot be iterated, and when an item raises; otherwise at most the number of users |
| `ActiveUsers.CountActiveIsCardinality` | backend/open_webui/utils/telemetry/metrics.py:105-111 | the count equals the size of the set of indices whose user passes the int guard and the cutoff |
| `ActiveUsers.CountActiveAppend` | backend/open_webui/utils/telemetry/metrics.py:105-111 | counting a concatenated listing adds the counts of its parts |
| `ActiveUsers.RemoveOneUser` | backend/open_webui/utils/telemetry/metrics.py:106-111 | each user adds exactly 1 or 0 to the count, by whether it passes the guard and the cutoff |
| `ActiveUsers.InclusiveCutoff` | backend/open_webui/utils/telemetry/metrics.py:104-110 | a user last active exactly `now - 3600` is counted |
| `ActiveUsers.OneSecondTooOld` | backend/open_webui/utils/telemetry/metrics.py:104-110 | a user last active at `now - 3601` is not counted |
| `ActiveUsers.NonIntegerStampNeverCounted` | backend/open_webui/utils/telemetry/metrics.py:108-110 | a user whose `last_active_at` is absent, null or not an int adds nothing |
| `ActiveUsers.AllCountedIff` | backend/open_webui/utils/telemetry/metrics.py:105-111 | the count equals the number of users if and only if every user passes the guard and the cutoff |
| `ActiveUsers.NoneCountedIff` | backend/open_webui/utils/telemetry/metrics.py:105-111 | the count is 0 if and only if no user passes the guard and the cutoff |
| `ActiveUsers.ReportedIsActiveCount` | backend/open_webui/utils/telemetry/metrics.py:101-112 | for a listing of dictionaries, the reported value is the number of users with an int stamp at least `now - 3600` |
| `ActiveUsers.ReportedExample` | backend/open_webui/utils/telemetry/metrics.py:101-112 | users last active 10 s ago, 3601 s ago and never give a reported value of 1 |
| `Attributes.RoutePath` | backend/open_webui/utils/telemetry/metrics.py:131-132 | the route label is the route's template path when a route with a `path` is in scope, and the literal URL path when no route is in scope or the route has no `path` |
| `Attributes.DeriveAttributes` | backend/open_webui/utils/telemetry/metrics.py:130-138 | the attribute map has exactly the keys method, route and status code; method and status are copied from the request and response; the route is the template when a route with a path is in scope, else the literal URL path |
| `Attributes.TemplateHidesConcretePath` | backend/open_webui/utils/telemetry/metrics.py:130-138 | requests matched to the same template, with the same method and status, get the same attribute set whatever their URL paths |
| `Attributes.UnmatchedPathReachesLabel` | backend/open_webui/utils/telemetry/metrics.py:131-132 | without a matched template, requests with different URL paths get different attribute sets |
| `Attributes.ItemsRouteExample` | backend/open_webui/utils/telemetry/metrics.py:130-132 | a request to `/items/42` matched to `/items/{id}` is labelled `/items/{id}` |
| `Attributes.ViewFor` | backend/open_webui/utils/telemetry/metrics.py:58-67 | the view found names the instrument and is one of the views; none is found only when no view names it |
| `Attributes.Restrict` | backend/open_webui/utils/telemetry/metrics.py:58-67 | keeps exactly the attributes whose keys the view lists, with their values |
| `Attributes.Retained` | backend/open_webui/utils/telemetry/metrics.py:58-67 | an instrument named by a view keeps exactly the attributes whose keys the view lists, with their values; an instrument no view names keeps every attribute |
| `Attributes.ViewsCoverInstruments` | backend/open_webui/utils/telemetry/metrics.py:58-67 | both `http.server.requests` and `http.server.duration` have a view, and its keys are the three-key vocabulary |
| `Attributes.RetainedWithinVocabulary` | backend/open_webui/utils/telemetry/metrics.py:58-67 | whatever attributes a call site passes, the instruments keep only the vocabulary keys, with unchanged values |
| `Attributes.ViewsKeepDerived` | backend/open_webui/utils/telemetry/metrics.py:58-67 | the views drop nothing from the attribute set the middleware derives |
| `RequestMetrics.SamplesUnder` | backend/open_webui/utils/telemetry/metrics.py:141 | no attribute set has more samples than the histogram holds |
| `RequestMetrics.SamplesUnderAppend` | backend/open_webui/utils/telemetry/metrics.py:141 | recording a sample adds one to the sample count of its own attribute set only |
| `RequestMetrics.TotalWithout` | backend/open_webui/utils/telemetry/metrics.py:140 | the counter's total is any one entry plus the total of the rest |
| `RequestMetrics.TotalAdd` | backend/open_webui/utils/telemetry/metrics.py:140 | adding an amount to one attribute set raises the counter's total by exactly that amount |
| `RequestMetrics.Instruments.constructor` | backend/open_webui/utils/telemetry/metrics.py:84-93 | the instruments start empty and consistent |
| `RequestMetrics.Instruments.Add` | backend/open_webui/utils/telemetry/metrics.py:140 | `add` raises the entry of the view-restricted attribute set by the amount, leaves all other entries unchanged, and raises the total by the amount |
| `RequestMetrics.Instruments.Record` | backend/open_webui/utils/telemetry/metrics.py:141 | `record` appends one sample under the view-restricted attribute set |
| `RequestMetrics.Instruments.Middleware` | backend/open_webui/utils/telemetry/metrics.py:124-143 | with a response: the counter entry of the derived attribute set goes up by exactly 1, no other entry changes, and exactly one sample is appended under the same set; the class invariant (per-key agreement of counter and histogram, counter total equal to the number of samples) is kept; the handler's result is returned unchanged; when the handler raises, nothing is recorded |

## Left out

- Meter provider construction, `Resource`, `PeriodicExportingMetricReader` and OTLP/gRPC export (metrics.py:46-56, 69-74, 80-81): library calls and network I/O. Only the view declarations (metrics.py:58-67) are modelled, as an attribute filter.
- Registration of the observable gauge with its callback (metrics.py:116-121) and the SDK's handling of duplicate instrument names: library behaviour.
- The `asyncio.run` bridge around `get_users` (metrics.py:101): its outcome is the `Fetch` parameter. The routers' `get_users` is not part of this model.
- `jsonable_encoder` (metrics.py:107): its result is given per user, as a dictionary with a `last_active_at` value or as something that is not a dictionary.
- The `print` of every user (metrics.py:109): console output.
- `time.time()` and `time.perf_counter()` (metrics.py:103, 126-128): the clock is the parameter `now`, and the elapsed time is an opaque non-negative value. Float arithmetic and millisecond conversion are not modelled.
- Middleware registration and `call_next` (metrics.py:124-127): framework plumbing. The handler's result is an input.
- Concurrency between request contexts and the exporter's timer: owned by the SDK.
- The histogram's bucket aggregation: the model keeps every sample, which is what the buckets summarise.
- `src/lib/utils/warning.ts` and `src/lib/apis/warning.ts`: each fetches a markdown file and renders it with the third-party `marked` library, falling back to an empty string. That is I/O plus a library outside this model.
