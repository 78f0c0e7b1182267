/** The parts of an HTTP exchange the middleware looks at. */
module Http {
  import opened Wrappers
  import opened Json

  /**
   * A request: its method (`verb`), the URL as mounted routers saw it (`originalUrl`,
   * absent or empty when not set), the URL relative to the router, and the
   * client address.
   */
  datatype Request = Request(verb: string, originalUrl: Option<string>, url: string, ip: string)

  /** A reply sent with `res.status(status).json(body)`. */
  datatype Reply = Reply(status: int, body: Json)

  /** The status Express sends when a handler calls `res.json` without `res.status`. */
  const DefaultStatus := 200
}
