/**
 `BaseDruidConnector`: construction with an endpoint URL, and the pure parts
 of `get_druid_data_from_sql` -- the request it builds and the way it reads
 the decoded reply. The POST itself and the JSON encoding and decoding are
 outside the model: the decoded reply is a parameter.
 */
module Connector {
  import opened Wrappers
  import opened Values

  /** A connector holds one piece of configuration, the SQL API endpoint. */
  datatype Connector = Connector(sqlDruidApiUrl: string)

  /** The exception `__init__` raises. */
  datatype Error = TypeError(message: string)

  /** What the connector hands to the HTTP client: endpoint, headers and JSON body. */
  datatype Request = Request(url: string, headers: Value, body: Value)

  /** `BaseDruidConnector(url)`: a string is stored verbatim, anything else raises TypeError. */
  function New(url: Value): (r: Result<Connector, Error>)
    ensures r.Success? <==> url.Str?
    ensures r.Success? ==> r.value.sqlDruidApiUrl == url.s
    ensures r.Failure? ==> r.error == TypeError("Object SQL_DRUID_API_URL must be str, not " + TypeName(url))
  {
    match url
    case Str(s) => Success(Connector(s))
    case _ => Failure(TypeError("Object SQL_DRUID_API_URL must be str, not " + TypeName(url)))
  }

  /** Every connector is obtained by constructing it from its own URL. */
  lemma NewRoundTrip(c: Connector)
    ensures New(Str(c.sqlDruidApiUrl)) == Success(c)
  {
  }

  /** Every key of the dict `v` is one of `keys`. */
  predicate KeysWithin(v: Value, keys: set<string>)
    requires v.Dict?
  {
    forall i :: 0 <= i < |v.entries| ==> v.entries[i].0 in keys
  }

  /**
   The request `get_druid_data_from_sql(query)` sends: to the configured
   URL, with a JSON content type, and a body that is an object of exactly
   `query` and `resultFormat: "object"`.
   */
  function BuildRequest(c: Connector, query: Value): (r: Request)
    ensures r.url == c.sqlDruidApiUrl
    ensures r.headers.Dict? && KeysWithin(r.headers, {"Content-Type"})
    ensures |r.headers.entries| == 1
    ensures DictGet(r.headers.entries, "Content-Type", Null) == Str("application/json")
    ensures r.body.Dict? && KeysWithin(r.body, {"query", "resultFormat"})
    ensures |r.body.entries| == 2
    ensures r.body.entries[0].0 == "query" && r.body.entries[1].0 == "resultFormat"
    ensures DictGet(r.body.entries, "query", Null) == query
    ensures DictGet(r.body.entries, "resultFormat", Null) == Str("object")
  {
    var body := [("query", query), ("resultFormat", Str("object"))];
    assert IsLastKey(body, "query", 0) by { assert body[1].0 != "query"; }
    Request(c.sqlDruidApiUrl, Dict([("Content-Type", Str("application/json"))]), Dict(body))
  }

  /**
   What `get_druid_data_from_sql` returns for the decoded reply `data`:
   the `"error"` entry of an object whose `"error"` entry is truthy, and
   `data` itself in every other case.
   */
  function HandleResponse(data: Value): (r: Value)
    ensures !data.Dict? ==> r == data
    ensures data.Dict? && (forall i :: 0 <= i < |data.entries| ==> data.entries[i].0 != "error") ==> r == data
    ensures data.Dict? ==> forall i :: IsLastKey(data.entries, "error", i) ==>
      r == (if Truthy(data.entries[i].1) then data.entries[i].1 else data)
  {
    if data.Dict? && Truthy(DictGet(data.entries, "error", Null)) then
      DictGet(data.entries, "error", Null)
    else
      data
  }

  /** A reply differs from what the caller gets only when it carried a truthy error. */
  lemma HandleResponseReportsError(data: Value)
    ensures HandleResponse(data) != data ==>
      data.Dict? && Truthy(HandleResponse(data)) &&
      exists i :: IsLastKey(data.entries, "error", i) && data.entries[i].1 == HandleResponse(data)
  {
  }

  /** Druid's failure-as-data replies and an ordinary result set. */
  lemma HandleResponseExamples()
    ensures HandleResponse(Dict([("error", Str("parse error"))])) == Str("parse error")
    ensures HandleResponse(Dict([("error", Str(""))])) == Dict([("error", Str(""))])
    ensures HandleResponse(Dict([("error", Null), ("rows", Int(1))])) == Dict([("error", Null), ("rows", Int(1))])
    ensures HandleResponse(List([Dict([("col", Str("val"))])])) == List([Dict([("col", Str("val"))])])
  {
  }
}
