/** The storefront request wrapper of `client-api.js`: no credentials,
    and a response classified by HTTP status, then content type, then
    the business code. */
module ClientApi {
  import opened Js
  import opened Http

  const NotJson: string := "后端服务未响应或返回格式错误，请确认后端服务已启动"

  /** `new Error(`HTTP ${response.status}: ${response.statusText}`)` */
  function StatusMessage(status: int, statusText: string): (m: string)
    ensures StartsWith(m, "HTTP ")
  {
    "HTTP " + IntToString(status) + ": " + statusText
  }

  /** The header `content-type` names JSON. */
  predicate IsJson(contentType: Option<string>) {
    contentType.Some? && Includes(contentType.value, "application/json")
  }

  /** The headers sent: Content-Type and the caller's, nothing else. */
  function ClientHeaders(caller: Headers): (h: Headers)
    ensures h.Keys == caller.Keys + {"Content-Type"}
  {
    BaseHeaders(caller)
  }

  /** No credentials are ever attached. */
  lemma NoAuthorization(caller: Headers)
    ensures "Authorization" in ClientHeaders(caller) <==> "Authorization" in caller
  {
  }

  /** `clientRequest(url, options)` once `fetch` has settled. */
  function ClientClassify<D>(r: Option<Response<D>>): (res: Result<D>)
    ensures r.Some? && !StatusOk(r.value.status) ==>
      res == Err(Message(StatusMessage(r.value.status, r.value.statusText)))
  {
    if r.None? then Err(Network)
    else if !StatusOk(r.value.status) then Err(Message(StatusMessage(r.value.status, r.value.statusText)))
    else if !IsJson(r.value.contentType) then Err(Message(NotJson))
    else if r.value.body.None? then Err(BadJson)
    else ByCode(r.value.body.value)
  }

  /** Data comes back exactly for a 2xx JSON answer with business code
      200, and it is the answer's data. */
  lemma ClientClassifyOk<D>(r: Option<Response<D>>)
    ensures ClientClassify(r).Ok? <==>
      r.Some? && StatusOk(r.value.status) && IsJson(r.value.contentType) && r.value.body.Some? && r.value.body.value.code == Some(200)
    ensures ClientClassify(r).Ok? ==> ClientClassify(r).value == r.value.body.value.data
  {
  }

  /** The checks run in order: a bad status is reported before the
      content type, a wrong content type before the body. */
  lemma CheckOrder<D>(r: Response<D>)
    ensures StatusOk(r.status) && !IsJson(r.contentType) ==> ClientClassify(Some(r)) == Err(Message(NotJson))
    ensures StatusOk(r.status) && IsJson(r.contentType) && r.body.Some? && r.body.value.code != Some(200) ==>
      ClientClassify(Some(r)) == Err(Message(MsgOr(r.body.value.msg, DefaultFailure)))
  {
  }

  /** The three messages the wrapper writes itself are pairwise distinct:
      a status failure starts with "HTTP ", the content-type failure and
      the default business failure do not, and those two differ. A
      business failure that carries the server's own `msg` may read like
      any of them. */
  lemma StatusMessageDistinct(status: int, statusText: string)
    ensures StatusMessage(status, statusText) != NotJson
    ensures StatusMessage(status, statusText) != DefaultFailure
    ensures NotJson != DefaultFailure
  {
    assert StatusMessage(status, statusText)[0] == 'H';
    assert NotJson[0] != DefaultFailure[0];
  }

  /** `clientGet(url, params)`: the same URL composition as the admin
      `get`. */
  function ClientGet(url: string, params: seq<Query.Param>): (r: (Call, Headers))
    ensures r.0.verb == Get
    ensures r.0.url == Query.WithQuery(url, params)
    ensures "Authorization" !in r.1
  {
    (GetCall(url, params), ClientHeaders(map[]))
  }
}
