/**
 * The environment snapshot as the browser sees it, after JSON decoding.
 * Fields the Go server omits when empty (`omitempty`) arrive as `undefined`:
 * an `Option` where truthiness or presence matters, "" otherwise.
 */
module JsData {
  import opened Wrappers

  /** `route.endpoints`: each list may be missing. */
  datatype JsEndpoints = JsEndpoints(inputs: Option<seq<string>>, outputs: Option<seq<string>>)

  /** A route record; `color` is the one `processSchema` assigns. */
  datatype JsRoute = JsRoute(
    name: string,
    state: string,
    uptime: string,
    exchangesTotal: Option<int>,
    endpoints: Option<JsEndpoints>,
    color: string)

  /** A service record with its flattened `routes`; `color` "" is falsy. */
  datatype JsService = JsService(
    name: Option<string>,
    error: Option<string>,
    lastUpdated: Option<string>,
    color: string,
    routeMap: Option<map<string, JsRoute>>,
    routes: seq<JsRoute>)

  /** An environment snapshot as `/data` returns it; `services` is filled in by `merge`. */
  datatype JsSnapshot = JsSnapshot(
    name: Option<string>,
    lastUpdated: Option<string>,
    serviceMap: Option<map<string, JsService>>)

  /** The route's inputs when `route.endpoints && route.endpoints.inputs`, else none. */
  function InputsOf(r: JsRoute): seq<string> {
    if r.endpoints.Some? && r.endpoints.value.inputs.Some? then r.endpoints.value.inputs.value else []
  }

  /** The route's outputs when `route.endpoints && route.endpoints.outputs`, else none. */
  function OutputsOf(r: JsRoute): seq<string> {
    if r.endpoints.Some? && r.endpoints.value.outputs.Some? then r.endpoints.value.outputs.value else []
  }
}
