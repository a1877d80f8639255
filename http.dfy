/** Values exchanged with the hosting runtime: query-parameter lookups and responses. */
module Http {

  /** The result of `searchParams.get(name)`: absent (`null`) or the parameter's text. */
  datatype Option<+T> = None | Some(value: T) {
    /** The `??` operator: the value when present, otherwise the fallback. */
    function GetOr(fallback: T): T {
      match this
      case Some(v) => v
      case None => fallback
    }
  }

  /** A response: status code, body text and headers in the order they are set. */
  datatype Response = Response(status: int, body: string, headers: seq<(string, string)>)
}
