/** The values that cross the boundary between the router, the handlers and Node's HTTP layer. */
module Http {
  import opened Wrappers

  newtype byte = x: int | 0 <= x < 256

  /** A JavaScript value as far as the router distinguishes it: a string, a Buffer, `null`
      (whose `typeof` is "object" but which has no properties), or any other value (number,
      undefined, an object that is not a thenable, ...), known only by an identity. */
  datatype JsValue = JsString(s: string) | JsBuffer(bytes: seq<byte>) | JsNull | JsOpaque(id: nat)
  {
    /** `typeof v === "string" || Buffer.isBuffer(v)`. */
    predicate IsText()
    {
      JsString? || JsBuffer?
    }
  }

  /** A value of the parsed query: one string, or the array Node builds for a repeated key. */
  datatype QueryValue = One(value: string) | Many(values: seq<string>)

  /** A loaded handler function, known by an identity and its source text with comments and
      whitespace already removed (what `Function.prototype.toString` gives, stripped). */
  datatype HandlerRef = HandlerRef(id: nat, source: string)

  /** What `require` returns for a handler file: a function, or anything else. */
  datatype ExportKind = FunctionExport(fn: HandlerRef) | OtherExport

  /** What calling a handler gave: a plain value, a thenable that settled either way, or an
      exception thrown synchronously out of `handler.apply`. */
  datatype HandlerResult = Returned(v: JsValue) | Resolved(v: JsValue) | Rejected(reason: JsValue) | Threw(error: string)

  /** The outcome of one request callback: the single value handed to `response.end`, or an
      exception escaping the callback before anything was sent. */
  datatype Response = End(payload: JsValue) | Thrown(error: string)

  /** `JSON.stringify({ error: message })`. */
  function ErrorBody(message: string): string
  {
    "{\"error\":\"" + message + "\"}"
  }

  /** What the thenable test (`typeof val === "object" && !!val.then ...`) throws for `null`. */
  const NullThen: string := "TypeError: Cannot read properties of null (reading 'then')"

  const NoHandlerFound: string := ErrorBody("no handler found")
  const ResponseNotSupported: string := ErrorBody("handler response not supported")

  /** `request.url || "/"`: a missing or empty URL reads as the root. */
  function DefaultUrl(url: Option<string>): (u: string)
    ensures u != ""
    ensures url.Some? && url.value != "" ==> u == url.value
    ensures url.None? || url.value == "" ==> u == "/"
  {
    if url.Some? && url.value != "" then url.value else "/"
  }

  /** `Object.keys(query).length`: the number of distinct keys of the parsed query. */
  function KeyCount(query: map<string, QueryValue>): nat
  {
    |query.Keys|
  }

  /** `query[name]`: the value of a key, or undefined. */
  function Lookup(query: map<string, QueryValue>, name: string): (v: Option<QueryValue>)
    ensures v.Some? <==> name in query
    ensures v.Some? ==> v.value == query[name]
  {
    if name in query then Some(query[name]) else None
  }

  /** `args.map(a => query[a])`. */
  function LookupAll(query: map<string, QueryValue>, names: seq<string>): (vs: seq<Option<QueryValue>>)
    ensures |vs| == |names|
    ensures forall i :: 0 <= i < |names| ==> vs[i] == Lookup(query, names[i])
  {
    if names == [] then [] else [Lookup(query, names[0])] + LookupAll(query, names[1..])
  }

  /** The request as Node's HTTP layer hands it to the callback; the legacy servers overwrite
      its `url` field. */
  class IncomingMessage {
    var url: Option<string>
    const httpMethod: string

    constructor (url: Option<string>, httpMethod: string)
      ensures this.url == url && this.httpMethod == httpMethod
    {
      this.url := url;
      this.httpMethod := httpMethod;
    }
  }

  /** The response object; `ended` records every value passed to `end`, in call order. */
  class ServerResponse {
    var ended: seq<JsValue>

    constructor ()
      ensures ended == []
    {
      ended := [];
    }

    method End(payload: JsValue)
      modifies this
      ensures ended == old(ended) + [payload]
    {
      ended := ended + [payload];
    }
  }
}
