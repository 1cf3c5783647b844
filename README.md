# camel-graph in Dafny

camel-graph draws a live map of Apache Camel routes. A Go back end polls each
configured service's Jolokia interface. It reads the route listing, then each
route's endpoints and XML schema, and keeps per-environment maps of services
and routes. An AngularJS page fetches these maps and merges each snapshot into
its own shape. It colours services and routes, then builds a vis.js graph with
one node per endpoint and one edge per (input, output) pair of a route. On
every poll it patches that graph in place.

This project models that core and proves what each part promises.

| Module (file) | What it models |
|---|---|
| `Camel` (camel.dfy) | The Jolokia replies and the configuration records, as values. A fetch that fails is `Failed(error)`. |
| `JsData` (jsdata.dfy) | The JSON records the page receives: snapshot, service, route, endpoints. |
| `Text` (text.dfy) | The Go `strings` functions the back end uses: `Replace(…, -1)`, `Split(…)[0]` (`Before`), the text after the first separator (`After`, so `Split(…)[1]` is `Before(After(…))`), `Contains`, `HasPrefix`. |
| `Normalize` (normalize.dfy) | `cleanEndpoint`, `cleanEndpoints`, `contains`, the append-if-absent pattern, and the route key `context.routeId` with spaces replaced by `_`. |
| `Listing` (listing.dfy) | Which listing entry a route key sees first and last. |
| `Setup` (setup.dfy) | The configuration checks of `NewService` and `NewEnvironment`, and the last-config-wins service map. |
| `ServiceModel` (service.dfy) | The current back end in `model/service.go`: `Service.update`, `Route.update`, `NewService`, `NewEnvironment`. The classes hold the route map and the endpoint lists that these update in place. Each class is proved against a value-level specification. |
| `LegacyModel` (legacy.dfy) | The older back end in `model.go`, in the same way, together with `extractEndpointUrlsAsStrings`. |
| `GraphSpec` (graphspec.dfy) | The graph as a value: endpoint ids, the node and edge datasets, and `edgeMap`. Defines `addEndpoint`, `addEdge`, `updateEdge`, `getRouteRepresentation`, `isNeedUpdate`, `build` and `updateGraph` as functions, with their lemmas. |
| `GraphSync` (graph.dfy) | `utils.js` as it runs: `getRandomColor`, `processSchema` over the services array, and a `Graph` class whose methods mutate its fields loop by loop. Every method is proved equal to its `GraphSpec` function. |
| `Snapshot` (snapshot.dfy) | The place controller in `environment.js`: `merge`, the start and the poll pipelines, the failed poll, the click handler, `selectGraphEndpoint` and `selectGraphElement`. |
| `Wrappers` (wrappers.dfy) | `Option`. |

JavaScript's `for … in` visits keys in an order the model does not fix.
Wherever the source loops over an object's keys, the model proves its claim for every order.
`Math.random()` is likewise an arbitrary choice.

## Model

| member | source | states |
|---|---|---|
| GraphSync.RandomColor | public/js/services/utils.js:2-9 | The colour is `#` followed by six hexadecimal letters from `0123456789ABCDEF`. |
| GraphSync.ProcessSchema | public/js/services/utils.js:12-21 | Each service in the array keeps a non-empty colour and gets a random one only when its colour is empty. Every route gets a fresh random colour. Nothing else in the record changes. |
| GraphSync.ColourService | public/js/services/utils.js:15-19 | One service after colouring: its own colour is kept if set, its routes are recoloured, and every other field is untouched. |
| GraphSync.RecolorRoutes | public/js/services/utils.js:17-19 | Same number of routes, each differing from the original only in a well-formed colour. |
| GraphSync.Graph.constructor | public/js/services/utils.js:23-28 | A new graph is empty: no endpoints, no edge ids, no nodes, no edges, no keys. |
| GraphSync.Graph.EdgeExists | public/js/services/utils.js:30-33 | In a well-formed graph, true exactly when `from_to` is in `edgeMap`. |
| GraphSync.Graph.AddEndpoint | public/js/services/utils.js:34-44 | Mutates the graph exactly as `GraphSpec.AddEndpoint` says. |
| GraphSync.Graph.AddNode | public/js/services/utils.js:45-51 | Appends one node labelled with the endpoint, in the service's colour and without strike. Nothing else changes. |
| GraphSync.Graph.AddEdge | public/js/services/utils.js:75-92 | Mutates the graph exactly as `GraphSpec.AddEdge` says. |
| GraphSync.Graph.UpdateEdge | public/js/services/utils.js:93-123 | Mutates the graph exactly as `GraphSpec.UpdateEdge` says. |
| GraphSync.Graph.AddInputs | public/js/services/utils.js:161-164 | The input loop equals `addEndpoint` folded over the route's inputs. |
| GraphSync.Graph.AddOutputs | public/js/services/utils.js:166-175 | The output loop equals `addEndpoint` folded over the outputs, skipping every output containing `{{`. |
| GraphSync.Graph.AddRouteEndpoints | public/js/services/utils.js:159-175 | One route's inputs, then its outputs, folded into the graph. |
| GraphSync.Graph.AddRoutesEndpoints | public/js/services/utils.js:158-176 | All routes of one service, in order. |
| GraphSync.Graph.AddAllEndpoints | public/js/services/utils.js:156-177 | The whole node phase equals `GraphSpec.AddEndpoints` over every service's steps. |
| GraphSync.Graph.LinkOne | public/js/services/utils.js:189-200 | One (input, output) pair: add the edge when both endpoints are known and, while building, when no edge exists yet. Equals `GraphSpec.LinkStep`. |
| GraphSync.Graph.LinkOutputs | public/js/services/utils.js:186-202 | One input against every output of the route. |
| GraphSync.Graph.LinkRoute | public/js/services/utils.js:183-204 | Every input against every output of one route. |
| GraphSync.Graph.LinkRoutes | public/js/services/utils.js:181-205 | Every route of one service. |
| GraphSync.Graph.LinkAll | public/js/services/utils.js:179-206 | The whole edge phase equals `GraphSpec.LinkAll` over all links. |
| GraphSync.Graph.Build | public/js/services/utils.js:151-211 | Starting empty, the datasets equal `GraphSpec.BuildGraph`. `endpointsKeys` lists every endpoint exactly once. The result is well formed. |
| GraphSync.Graph.PushKeys | public/js/services/utils.js:208-210 | Pushes every endpoint key exactly once and changes nothing else. |
| GraphSync.BuildGraphFromSchema | public/js/services/utils.js:22-215 | A fresh graph whose datasets and edge map are those of `GraphSpec.BuildGraph(services)`, whose key list holds exactly the known endpoints, each once, and which is well formed. |
| GraphSync.UpdateGraph | public/js/services/utils.js:216-274 | The graph becomes `GraphSpec.UpdateGraph(old, services)` and stays well formed. |
| GraphSpec.EmptyValid | public/js/services/utils.js:23-28 | The empty graph is well formed: ids index nodes, `edgeMap` is the set of edge ids, and edges join existing nodes. |
| GraphSpec.RouteRepresentation | public/js/services/utils.js:124-140 | Weight 1. Dashed exactly when the route is not `Started`. Grey for `None`, red for any other non-started state, the service's colour when started. |
| GraphSpec.IsNeedUpdate | public/js/services/utils.js:141-150 | False whenever either exchange total is missing. Otherwise true exactly when the total, state or uptime changed. |
| GraphSpec.AddEndpoint | public/js/services/utils.js:34-44 | A known endpoint leaves the graph as it is. An unseen one gets the next id, the current node count, and a node in the service's colour. Old ids and the edges are untouched. |
| GraphSpec.AddEndpointValid | public/js/services/utils.js:34-44 | `addEndpoint` keeps the graph well formed. |
| GraphSpec.AddEdge | public/js/services/utils.js:75-92 | Stores the edge under `(from, to)`, with the route's representation and label, and records the id in `edgeMap`. Nothing else changes. |
| GraphSpec.AddEdgeValid | public/js/services/utils.js:75-92 | An edge between existing nodes keeps the graph well formed. |
| GraphSpec.UpdateEdge | public/js/services/utils.js:93-123 | With no stored edge, nothing changes. With one, the target loses its strike. Only when `isNeedUpdate` holds is the edge rewritten from the new route and the target struck. Ids and `edgeMap` never change. |
| GraphSpec.UpdateEdgeValid | public/js/services/utils.js:93-123 | `updateEdge` keeps the graph well formed. |
| GraphSpec.UpdateEdgeTwice | public/js/services/utils.js:93-123 | Repeating the same `updateEdge` leaves the edges as the first call left them. |
| GraphSpec.UpdateEdgeFrozen | public/js/services/utils.js:141-146 | An edge stored from a route without an exchange total is never rewritten again. |
| GraphSpec.PlaceholderContains | public/js/services/utils.js:170 | The placeholder test is exactly `indexOf("{{") !== -1`. |
| GraphSpec.InputSteps | public/js/services/utils.js:161-164 | The endpoints visited are exactly the inputs. |
| GraphSpec.OutputSteps | public/js/services/utils.js:166-175 | The endpoints visited are exactly the outputs that hold no `{{`. |
| GraphSpec.AddEndpoints | public/js/services/utils.js:156-177 | The known endpoints grow by exactly the visited ones, old ids keep their value, and nodes are only appended, without strike. Edges are untouched. |
| GraphSpec.AddEndpointsValid | public/js/services/utils.js:156-177 | The node phase keeps the graph well formed. |
| GraphSpec.AddEndpointsCount | public/js/services/utils.js:34-44 | One node is added per distinct endpoint not yet known. |
| GraphSpec.AddEndpointsFirstSeen | public/js/services/utils.js:34-40 | An endpoint gets the id and the colour of the step where it is first seen. |
| GraphSpec.AddEndpointsKnown | public/js/services/utils.js:222-241 | When every endpoint is already known, the node phase changes nothing. |
| GraphSpec.Resolved | public/js/services/utils.js:189-197 | The edge ids a list of links stands for: those whose input and output are both known. |
| GraphSpec.LinkStep | public/js/services/utils.js:195-200 | Ids and node labels are untouched, and only strikes can change, never while building. Once `edgeMap` matches the edges, the edge keys grow by the link's resolved id. |
| GraphSpec.LinkAll | public/js/services/utils.js:179-206 | The same for a list of links: the edge ids become the old ones plus exactly the resolved links. |
| GraphSpec.FedBy | public/js/services/utils.js:160-175 | The endpoints one route contributes: its inputs and its outputs without `{{`. |
| GraphSpec.ServicesFedMembers | public/js/services/utils.js:156-177 | An endpoint is contributed exactly when some route of some service feeds it. |
| GraphSpec.LinkStepValid | public/js/services/utils.js:189-200 | A link keeps the graph well formed. |
| GraphSpec.LinkAllValid | public/js/services/utils.js:179-206 | The edge phase keeps the graph well formed. |
| GraphSpec.BuildGraphValid | public/js/services/utils.js:151-211 | `build` yields a well-formed graph. |
| GraphSpec.UpdateGraphValid | public/js/services/utils.js:216-274 | `updateGraph` keeps a well-formed graph well formed. |
| GraphSpec.BuildGraphKeys | public/js/services/utils.js:156-177 | The built graph knows exactly the endpoints the services feed. |
| GraphSpec.BuildGraphNodes | public/js/services/utils.js:156-177 | An endpoint has a node after `build` exactly when some route feeds it. |
| GraphSpec.PlaceholderNeverNode | public/js/services/utils.js:166-175 | An endpoint with `{{` that is no route's input never gets a node. |
| GraphSpec.BuildGraphEdges | public/js/services/utils.js:179-206 | The built graph has an edge exactly for the resolved (input, output) pairs. |
| GraphSpec.BuildingKeepsEdges | public/js/services/utils.js:195-200 | While building, an existing edge is never overwritten. |
| GraphSpec.BuildingFirstLinkWins | public/js/services/utils.js:195-200 | While building, an edge carries the route and colour of the first link that resolves to it. |
| GraphSpec.UpdateGraphNodes | public/js/services/utils.js:218-245 | After `updateGraph`, an endpoint is known exactly when it was known before or some route feeds it. |
| GraphSpec.UpdateGraphKept | public/js/services/utils.js:222-241 | An endpoint already known keeps its id, label and colour. |
| GraphSpec.UpdateGraphKeys | public/js/services/utils.js:218-245 | The known endpoints grow by exactly the fed ones. |
| GraphSpec.PatchingSettles | public/js/services/utils.js:260-266 | If every link to one edge carries the same statistics, then after patching every link lands on a stored edge that it would not rewrite. |
| GraphSpec.SettledKeepsEdges | public/js/services/utils.js:247-273 | Patching with links that would rewrite nothing leaves the edges unchanged. |
| GraphSpec.UpdateGraphTwice | public/js/services/utils.js:216-274 | With consistent statistics, a second `updateGraph` with the same data leaves the edges as the first left them. |
| GraphSpec.PatchingFlips | public/js/services/utils.js:260-266 | Two routes with different statistics that share one edge: the later one wins and the target is struck on every poll. |
| GraphSpec.LinkStepStored | public/js/services/utils.js:260-266 | After one patching link onto a stored edge, when both routes carry an exchange total, the edge holds the link's total, state and uptime. |
| GraphSpec.LinkStepRewrites | public/js/services/utils.js:93-123 | A patching link whose edge needs an update stores the edge built from its own route and colour, and strikes the target. |
| Snapshot.ListsCount | public/js/controllers/environment.js:35-39 | A `for … in` flattening lists as many values as the object has keys, and every value. |
| Snapshot.Values | public/js/controllers/environment.js:35-39 | The loop yields the values of some order of the keys. |
| Snapshot.Adopt | public/js/controllers/environment.js:20-29 | A service the old snapshot knew becomes a bare record with only the new `error` and `lastUpdated`. A new one is taken as it is. |
| Snapshot.MergeSnapshots | public/js/controllers/environment.js:11-52 | The result carries the new name and `lastUpdated`. Its services are the adopted records of the new snapshot, each with `routes` listing its `routeMap`, and `services` lists them. |
| Snapshot.MergeFromNothing | public/js/controllers/environment.js:54 | Merging into `{}` keeps every new service record, with its routes flattened. |
| Snapshot.MergeDropsStale | public/js/controllers/environment.js:18-39 | A service missing from the new snapshot does not survive the merge. |
| Snapshot.AdoptAll | public/js/controllers/environment.js:18-31 | The merging loop: same service names, each adopted. |
| Snapshot.FlattenRoutes | public/js/controllers/environment.js:41-49 | Each service's `routes` lists its `routeMap`; nothing else changes. |
| Snapshot.Toggle | public/js/controllers/environment.js:197 | Selecting the current entry, or nothing, clears the selection. Any other entry becomes selected. |
| Snapshot.ToggleTwice | public/js/controllers/environment.js:196-198 | Selecting an endpoint twice from nothing clears it again. |
| Snapshot.NodesGet | public/js/controllers/environment.js:112 | Returns only stored nodes; the first known id gives the first node. Empty exactly when no id is known. |
| Snapshot.EdgesGet | public/js/controllers/environment.js:113 | Returns only stored edges; the first known id gives the first edge. Empty exactly when no id is known. |
| Snapshot.ClickTarget | public/js/controllers/environment.js:116-120 | A node click targets the first node's endpoint, an edge-only click the first edge's route. Nothing is targeted when both lists are empty. |
| Snapshot.Selection.constructor | public/js/controllers/environment.js:111-120 | The prepared click data: nodes, edges, and the endpoint or the route. |
| Snapshot.Place.constructor | public/js/controllers/environment.js:54-56 | The start: the data is the initial snapshot merged into `{}` and coloured. The graph is `build` of it, edge map included, and its key list holds exactly the fed endpoints, each once. Nothing is selected and there is no error. |
| Snapshot.Place.Merge | public/js/controllers/environment.js:11-52 | `merge` also records the new `lastUpdated` on the connection and touches nothing else. |
| Snapshot.Place.SelectGraphEndpoint | public/js/controllers/environment.js:196-198 | The selected endpoint toggles; nothing else changes. |
| Snapshot.Place.SelectGraphElement | public/js/controllers/environment.js:225-234 | The endpoint selection toggles to the entry's endpoint, or is cleared. The element selection toggles by identity. |
| Snapshot.Place.Click | public/js/controllers/environment.js:109-125 | With no ids, nothing happens. Otherwise a `Selection` is prepared from the clicked nodes and edges and passed to `selectGraphElement`. |
| Snapshot.Place.Receive | public/js/controllers/environment.js:65-71 | A successful poll clears the error and merges the new snapshot into `{}` as local data, then colours it. The same graph becomes `updateGraph` of it, with its keys grown by the fed endpoints. `$scope.data` and the selections are untouched. |
| Snapshot.Place.Lose | public/js/controllers/environment.js:72-74 | A failed poll sets the connection error to `Connection with server is lost` and changes nothing else. |
| Snapshot.Colour | public/js/controllers/environment.js:55 | `processSchema` applied to the merged services: each one coloured, in place and in order. |
| Text.Before | model/service.go:352 | `Split(s, sep)[0]`: a prefix of `s` holding no `sep`, followed in `s` by `sep` unless it is all of `s`; all of `s` when `sep` does not occur. |
| Text.BeforeFirst | model/service.go:352 | The cut is at the first occurrence: no `sep` starts inside the kept prefix, even for a separator that overlaps itself. |
| Text.After | model/service.go:354 | Everything after the first `sep`: `s` is `Before(s, sep)`, then `sep`, then the result. |
| Normalize.FoldVirtualTopic | model/service.go:353-356 | An endpoint without `VirtualTopic` is unchanged. Otherwise the result is `VirtualTopic` followed by a topic that holds no `VirtualTopic`, is a prefix of the text after the first `VirtualTopic`, and stops where that text ends or where the next `VirtualTopic` begins. |
| Normalize.PrefixService | model/service.go:357-362 | `direct…` and `timer…` endpoints get `service:` in front; any other endpoint is unchanged. |
| Normalize.PrefixServiceOnce | model/service.go:357-362 | A `direct…` or `timer…` endpoint becomes exactly `service:` + endpoint, unless a `direct` endpoint's prefixed form starts with `timer`. |
| Normalize.StripQuery | model/service.go:352 | `Split(s, "?")[0]`: a prefix of `s` without `?`, followed in `s` by `?` unless it is all of `s`. |
| Normalize.FoldKeepsOut | model/service.go:353-356 | Folding introduces no character that is in neither the endpoint nor `VirtualTopic`. |
| Normalize.CleanEndpoint | model/service.go:346-364 | The whole chain: a cleaned endpoint never holds a `?` unless the service name does. |
| Normalize.DecodeBracesComplete | model/service.go:347-348 | No `%7B` or `%7D` survives decoding. |
| Normalize.DecodeBracesPlain | model/service.go:347-348 | An endpoint without encoded braces is unchanged. |
| Normalize.RewriteRenamesActivemq | model/service.go:350 | No `activemq:` survives the rewrite. |
| Normalize.FoldVirtualTopicDropsBroker | model/service.go:353-356 | `broker` + `VirtualTopic` + `topic` folds to `VirtualTopic` + `topic`. |
| Normalize.CleanEndpointIgnoresQuery | model/service.go:352 | Any query after the first `?` does not change the cleaned endpoint. |
| Normalize.CleanEndpointNotIdempotent | model/service.go:346-364 | Cleaning twice can differ from cleaning once: `a:////b` becomes `a://b`, then `a:b`. |
| Normalize.PrefixServiceTwice | model/service.go:357-362 | A `direct` endpoint in a service named `timers…` is prefixed twice. |
| Normalize.CleanEndpoints | model/service.go:337-344 | One cleaned uri per entry, in order. |
| Normalize.ContainsEntry | model/service.go:325-335 | True exactly when the entry is in the list, the empty list included. |
| Normalize.SkipsUnfilledOutput | model/service.go:272 | The skip guard never fires: an empty uri cannot contain `{{`. |
| Normalize.AppendNew | model/service.go:276-278 | The list is kept as a prefix, and the result holds exactly the old entries and the candidates. |
| Normalize.AppendNewDistinct | model/service.go:276-278 | Appending only what is absent keeps a list free of duplicates. |
| Normalize.AppendNewIdempotent | model/service.go:276-278 | Appending the same candidates again changes nothing. |
| Normalize.RouteKeyHasNoSpace | model/service.go:157-159 | A route key never holds a space. |
| Normalize.RouteKeyConflatesSpaces | model/service.go:157-159 | Route ids `a b` and `a_b` of one context share a key. |
| Listing.LastReport | model/service.go:181-194 | Defined exactly when some entry has the key; it is the last such entry. |
| Listing.FirstReport | model/service.go:160-180 | Defined exactly when some entry has the key; it is the first such entry. |
| Listing.ReportsGrow | model/service.go:156-197 | Appending one entry updates the reported keys and the first and last reports as expected. |
| Setup.FirstError | model/service.go:81-85 | No error exactly when every service config passes; otherwise the error is one of theirs. |
| Setup.FirstErrorStays | model/service.go:81-85 | The first failing config's error is the one returned, whatever follows it. |
| Setup.LastConfig | model/service.go:81-87 | A name is present exactly when some config carries it; the entry carries that name and is a config after which no other config has the name: the last one wins the map slot. |
| ServiceModel.KeptOutputs | model/service.go:269-279 | Every static output uri, cleaned, in order. The skip guard drops none. |
| ServiceModel.SchemaUris | model/service.go:299-319 | The cleaned form of every non-empty `uri` attribute. |
| ServiceModel.AbsorbAllCharacterised | model/service.go:156-197 | After the listing, a key is present exactly when it was known or reported. Its route is the known one, or the one built from the first report, stamped with the last report. |
| ServiceModel.MergeCharacterised | model/service.go:141-201 | The whole update: states reset to `None`, then every entry absorbed, with the same characterisation. |
| ServiceModel.MergeKeys | model/service.go:141-201 | Routes are never removed; new keys are exactly the reported ones. |
| ServiceModel.MergeUnreported | model/service.go:149-151 | A route missing from the listing keeps everything but its state, which becomes `None`. |
| ServiceModel.MergeReported | model/service.go:181-194 | A reported route carries the last entry's state, uptime and counters. A known one changes in nothing else. |
| ServiceModel.MergeCreates | model/service.go:161-180 | A new route takes its context and name from the first entry for its key. Its only input is that entry's cleaned uri, and it has no outputs. |
| ServiceModel.MergeIdempotent | model/service.go:141-201 | Applying the same listing twice gives the same routes as once. |
| ServiceModel.RefreshFailure | model/service.go:249-261 | When the endpoints fetch fails or its status is not 200, the route is unchanged and that error is returned. |
| ServiceModel.RefreshAppends | model/service.go:242-323 | Inputs and outputs only grow: the old lists stay prefixes and stay duplicate-free. Nothing but the lists and the schema changes. |
| ServiceModel.RefreshCollects | model/service.go:264-319 | After a successful update every cleaned static output and schema uri is in the route's lists, and the schema is stored. |
| ServiceModel.RefreshIdempotent | model/service.go:242-323 | Repeating an update with the same replies changes nothing more. |
| ServiceModel.EndpointsOutcomeAsWritten | model/service.go:262-281 | As written, a 200 reply panics exactly when `routes` is absent. |
| ServiceModel.EndpointsWithoutRoutesPanic | model/service.go:264 | A reply `{"status":200}` whose value lacks `routes` panics as written, while the corrected update succeeds. |
| ServiceModel.RefreshWithoutRoutes | model/service.go:264-281 | Corrected: a 200 reply without `routes`, and an empty schema, leave the route unchanged and report no error. |
| ServiceModel.Route.constructor | model/service.go:162-177 | A new route holds the entry's context, name and uri, and its cleaned uri as the only input. |
| ServiceModel.Route.Report | model/service.go:181-194 | The route takes the entry's state, uptime and counters. |
| ServiceModel.Route.AddOutput | model/service.go:276-278 | Appends the candidate unless it is already an output. |
| ServiceModel.Route.AddInput | model/service.go:315-317 | Appends the candidate unless it is already an input. |
| ServiceModel.Route.Update | model/service.go:242-323 | The route and the error are exactly `Refresh` of the old route and the two replies. |
| ServiceModel.Route.AddStaticOutputs | model/service.go:265-280 | Appends every new cleaned output of every listed route. |
| ServiceModel.Route.AddKeptOutputs | model/service.go:269-279 | Appends every new cleaned output of one listed route. |
| ServiceModel.Route.AddOutputs | model/service.go:300-308 | Appends every new schema `to` uri. |
| ServiceModel.Route.AddInputs | model/service.go:311-319 | Appends every new schema `from` uri. |
| ServiceModel.Service.constructor | model/service.go:99-108 | A service holds its config's name, url and colour, no routes, and state `in_process`. |
| ServiceModel.Service.Update | model/service.go:141-201 | A failed fetch returns its error and changes nothing. Otherwise the routes become `Merge` of the listing, existing route objects are kept, and new ones are fresh. |
| ServiceModel.Service.MarkAllNone | model/service.go:149-151 | Every route's state becomes `None`. |
| ServiceModel.Service.AbsorbEntry | model/service.go:157-196 | One entry is absorbed as `Absorb` says. |
| ServiceModel.Service.StampRoute | model/service.go:181-194 | Only the route under the key changes, and it is stamped. |
| ServiceModel.Service.RouteFor | model/service.go:157-180 | Returns the route under the entry's key, creating and filing it when absent. |
| ServiceModel.Environment.constructor | model/service.go:78-80 | A named environment with no services. |
| ServiceModel.ServiceError | model/service.go:92-98 | No error exactly when the name and the url are non-empty. |
| ServiceModel.EnvironmentError | model/service.go:74-87 | No error exactly when the environment is named and every service config is valid. |
| ServiceModel.NewService | model/service.go:92-111 | A service exactly when there is no config error; the error otherwise. |
| ServiceModel.NewEnvironment | model/service.go:74-89 | An environment exactly when there is no config error. Its services are keyed by name, and the last config of a name wins. |
| LegacyModel.Extracted | model.go:360-371 | One uri per entry, with the braces decoded. |
| LegacyModel.ExtractEndpointUrls | model.go:360-371 | The loop computes `Extracted`. |
| LegacyModel.ExtractedDecodes | model.go:365-366 | No encoded brace survives, and a uri without one is kept as it is. |
| LegacyModel.LastOutputs | model.go:342-349 | Empty when no listed route has outputs. Otherwise the extracted outputs of one that has, the last one visited. |
| LegacyModel.RefreshNon200KeepsOutputs | model.go:330-333 | A non-200 endpoints reply stores the schema, keeps the outputs and returns the reply's error. |
| LegacyModel.RefreshReplacesOutputs | model.go:339-353 | A 200 reply replaces the outputs whatever they were, and the inputs never change. |
| LegacyModel.RefreshIdempotent | model.go:305-358 | Repeating an update with the same replies changes nothing more. |
| LegacyModel.OutputsAsWritten | model.go:340-341 | As written, a 200 reply panics exactly when `routes` is absent. |
| LegacyModel.OutputsWithoutRoutes | model.go:340-353 | That reply panics as written; corrected, it leaves no outputs. |
| LegacyModel.AbsorbAllCharacterised | model.go:191-235 | A key is present exactly when it was known or reported. Its route is the known one, or built from the first report, with the last report's counters. |
| LegacyModel.AbsorbAllKeys | model.go:191-235 | Routes are never removed; new keys are exactly the reported ones. |
| LegacyModel.AbsorbAllKeepsKnown | model.go:218-232 | A known route keeps everything but its counters, which come from the last report. Its state and uptime are never refreshed. |
| LegacyModel.AbsorbAllCreates | model.go:197-215 | A new route takes state and uptime from the first entry for its key. |
| LegacyModel.AbsorbAllIdempotent | model.go:191-235 | The same listing twice gives the same routes as once. |
| LegacyModel.Route.constructor | model.go:199-214 | A new route holds the entry's context, name, uri, state and uptime, with the raw uri as its only input. |
| LegacyModel.Route.Report | model.go:222-232 | Only the eleven counters change. |
| LegacyModel.Route.Update | model.go:305-358 | The route and the error are exactly `Refresh` of the old route and the two replies. |
| LegacyModel.Service.constructor | model.go:127-137 | A service holds its config's name, url and colour and no routes. Both updating states are `in_process`. |
| LegacyModel.Service.Update | model.go:171-245 | A failed fetch returns its error and changes nothing. Otherwise the routes become `AbsorbAll` of the listing, and existing route objects are kept. |
| LegacyModel.Service.AbsorbEntry | model.go:192-234 | One entry is absorbed as `Absorb` says. |
| LegacyModel.Service.CountRoute | model.go:222-232 | Only the route under the key changes, and only its counters. |
| LegacyModel.Service.RouteFor | model.go:192-218 | Returns the route under the entry's key, creating and filing it when absent. |
| LegacyModel.Environment.constructor | model.go:106-108 | A named environment with no services. |
| LegacyModel.ServiceError | model.go:120-126 | No error exactly when the name and the url are non-empty. |
| LegacyModel.EnvironmentError | model.go:102-115 | No error exactly when the environment is named and every service config is valid. |
| LegacyModel.NewService | model.go:120-140 | A service exactly when there is no config error; the error otherwise. |
| LegacyModel.NewEnvironment | model.go:102-117 | An environment exactly when there is no config error. Its services are keyed by name, and the last config of a name wins. |

## Left out

- HTTP, Jolokia and JSON/XML decoding are left out. Replies enter as decoded values (`Fetch`, `EndpointsReply`, `SchemaReply`), and the schema enters as its lists of `to` and `from` uris.
- Goroutines, tickers, channels and the `doUpdate` loops are left out, along with the updating-state transitions they drive. `collectMetrics`, `sendMetrics` and the Graphite consumer are left out too. The model covers one call of each `update`.
- Go map iteration order is random, so the order of the endpoint-reply routes is an input to `LegacyModel.LastOutputs` and `ServiceModel.StaticOutputs`.
- `getRouteTitle` (utils.js:55-74) is left out because it formats uptimes with the clock. Edge titles and the `font` field are not modelled.
- `updateNode` (utils.js:52-54) does nothing and is modelled as nothing.
- The vis.js network, `drawGraph` options, the `$watch` that resizes and focuses nodes (environment.js:199-221) and `showOptionsDialog` are UI and are left out.
- The `listen` timer and `$http` call (environment.js:58-79) are left out. Their two callbacks are `Snapshot.Place.Receive` and `Snapshot.Place.Lose`.
- Aliasing is left out. `merge` reuses the new snapshot's service objects, so flattening routes and `processSchema` also write into `newData` and into `result.serviceMap`. The model works on values and recolours only `services`.
- The page's records carry only the fields the core reads. Other route counters are not modelled.
- GraphSync.Graph.AddNode: requires the id to be the next free one, as `addEndpoint` guarantees. vis.js would throw on a duplicate id.
- GraphSync.Graph.EdgeExists: the equivalence is stated for well-formed graphs, the only ones the code builds.
- GraphSync.RandomColor: states the colour's shape, not that its letters are uniformly random.
- Snapshot.Place.Click: when the clicked ids match no stored node or edge, the source throws on `data.edges[0].route`; the model selects nothing.
- Snapshot.MergeSnapshots: the result is stated for some key order, since `for … in` order is not fixed.
- Endpoint lookups go through a plain `{}` object (utils.js:35, 189-190, 225, 238), so a name inherited from `Object.prototype`, such as `constructor` or `toString`, would count as already known there. The model's `map` has no inherited names. Camel endpoint uris carry a scheme (`direct:`, `jms:`), so such a name does not arise.
- GraphSpec.UpdateGraphNodes: the source's extra `typeof id == "undefined"` test before `addEndpoint` (utils.js:225-226) is folded into `addEndpoint`'s own test, which it duplicates.

## Findings

| source | as written | input that shows it | evidently intended | confidence | as-written member | corrected member |
|---|---|---|---|---|---|---|
| model/service.go:264 | `*endpointsEntry.Routes != nil` dereferences the `Routes` pointer, which stays nil when the decoded value has no `routes` key | an endpoints reply with status 200 whose value lacks `routes` | test `endpointsEntry.Routes != nil` and add no outputs | high, not executed | ServiceModel.EndpointsWithoutRoutesPanic | ServiceModel.RefreshWithoutRoutes |
| model.go:341 | the same dereference of `*endpointsEntry.Routes` | an endpoints reply with status 200 whose value lacks `routes` | test the pointer and leave the outputs empty | high, not executed | LegacyModel.OutputsAsWritten | LegacyModel.OutputsWithoutRoutes |

Other behaviour the proofs bring out, which is kept as written:

- the skip guard at model/service.go:272 can never fire (`Normalize.SkipsUnfilledOutput`);
- `cleanEndpoint` is not idempotent (`Normalize.CleanEndpointNotIdempotent`);
- route keys conflate spaces and underscores (`Normalize.RouteKeyConflatesSpaces`);
- two routes sharing one edge with different statistics rewrite it and strike its target on every poll (`GraphSpec.PatchingFlips`).
