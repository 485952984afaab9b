/** What the two request wrappers share: methods, the GET URL with its
    query string, request headers, and the response and result shapes
    they classify. The transport itself (`fetch`) is not modelled: a
    response, or its absence when the network fails, is an input. */
module Http {
  import opened Js
  import opened Query

  datatype Method = Get | Post | Put | Delete

  /** A request as the pages issue it; JSON bodies are kept abstract. */
  datatype Call = Call(verb: Method, url: string)

  /** `get(url, params)` / `clientGet(url, params)`: the query string is
      appended after '?' only when it is non-empty. */
  function GetCall(url: string, params: seq<Param>): (c: Call)
    ensures c.verb == Get
    ensures params == [] <==> c.url == url
  {
    Call(Get, WithQuery(url, params))
  }

  /** A GET URL splits back into the path and the parameters, in order. */
  lemma GetCallReadsBack(url: string, params: seq<Param>)
    requires Free(url, '?') && Plain(params) && params != []
    ensures var u := GetCall(url, params).url;
      var k := |url|;
      |u| > k && u[..k] == url && u[k] == '?' && Decode(u[k + 1..]) == params
  {
    var q := Encode(params);
    var u := url + "?" + q;
    assert u[..|url|] == url;
    assert u[|url| + 1..] == q;
    DecodeEncode(params);
  }

  // -----------------------------------------------------------------------
  // Headers

  type Headers = map<string, string>

  /** `{ 'Content-Type': 'application/json', ...options.headers }`: the
      caller's headers win over the default. */
  function BaseHeaders(caller: Headers): (h: Headers)
    ensures h.Keys == caller.Keys + {"Content-Type"}
    ensures forall k :: k in caller ==> h[k] == caller[k]
    ensures "Content-Type" !in caller ==> h["Content-Type"] == "application/json"
  {
    map["Content-Type" := "application/json"] + caller
  }

  // -----------------------------------------------------------------------
  // Responses

  /** The JSON envelope every endpoint answers with. */
  datatype Envelope<D> = Envelope(code: Option<int>, msg: Option<string>, data: D)

  /** A response: status line, content type, and the body when it parses
      as JSON (None when `response.json()` rejects). */
  datatype Response<D> = Response(status: int, statusText: string, contentType: Option<string>, body: Option<Envelope<D>>)

  /** `response.ok` */
  predicate StatusOk(status: int) {
    200 <= status <= 299
  }

  /** Why a request failed: no response at all, a body that is not JSON,
      or an `Error` with a message. */
  datatype Failure = Network | BadJson | Message(text: string)

  datatype Result<D> = Ok(value: D) | Err(failure: Failure)

  const DefaultFailure: string := "请求失败"

  /** `result.msg || fallback` */
  function MsgOr(msg: Option<string>, fallback: string): (m: string)
    ensures m != ""  || fallback == ""
  {
    OrStr(msg, fallback)
  }

  /** The business-code check both wrappers end with: only code 200
      yields the data, anything else an error with the server's message
      or the default. */
  function ByCode<D>(e: Envelope<D>): (r: Result<D>)
    ensures r.Ok? <==> e.code == Some(200)
    ensures r.Ok? ==> r.value == e.data
    ensures r.Err? ==> r.failure == Message(MsgOr(e.msg, DefaultFailure))
  {
    if e.code == Some(200) then Ok(e.data) else Err(Message(MsgOr(e.msg, DefaultFailure)))
  }
}
