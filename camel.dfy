/**
 * The values the Go server exchanges with a Camel service's Jolokia agent and
 * reads from its configuration, once HTTP and JSON/XML decoding are done.
 * The field names follow the Go structs (`ReadRouteEntry`, `ReadResponse`,
 * `ReadRoutesEndpointsEntry`, `ServiceConfig`, ...).
 */
module Camel {
  import opened Wrappers

  /** The eleven route statistics copied on every poll. */
  datatype Counters = Counters(
    exchangesTotal: int,
    exchangesCompleted: int,
    exchangesFailed: int,
    exchangesInflight: int,
    maxProcessingTime: int,
    minProcessingTime: int,
    lastProcessingTime: int,
    meanProcessingTime: int,
    totalProcessingTime: int,
    failuresHandled: int,
    redeliveries: int)

  /** One value of the routes listing (`ReadRouteEntry`). */
  datatype ReadRouteEntry = ReadRouteEntry(
    endpointUri: string,
    camelManagementName: string,
    uptime: string,
    camelId: string,
    routeId: string,
    state: string,
    counters: Counters,
    startTimestamp: string)

  /** What `callEndpoint` gives back: a transport error, or the body (already decoded). */
  datatype Fetch<T> = Failed(error: string) | Fetched(body: T)

  /** `ReadRouteEndpointsEntry`: the uris of a route's inputs and outputs, nil when absent. */
  datatype RouteEndpoints = RouteEndpoints(inputs: Option<seq<string>>, outputs: Option<seq<string>>)

  /**
   * `ReadResponse` of the static-endpoints call; `routes` is its `value`
   * decoded as `ReadRoutesEndpointsEntry.Routes`, `None` when that pointer
   * stays nil (no `routes` key, or `value` is not JSON).
   */
  datatype EndpointsReply = EndpointsReply(status: int, error: string, routes: Option<seq<RouteEndpoints>>)

  /**
   * `ReadResponse` of the route-schema call: `value` is the route as XML, and
   * `toUris`/`fromUris` are the `uri` attributes of its `to` and `from`
   * elements (an absent attribute reads as "").
   */
  datatype SchemaReply = SchemaReply(value: string, toUris: seq<string>, fromUris: seq<string>)

  /** `ServiceConfig` without its credentials. */
  datatype ServiceConfig = ServiceConfig(name: string, url: string, color: string)

  /** `EnvironmentConfig`. */
  datatype EnvironmentConfig = EnvironmentConfig(name: string, services: seq<ServiceConfig>)
}
