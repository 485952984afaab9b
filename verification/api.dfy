/** The admin request wrapper of `api.js`: the bearer header taken from
    the token store, and the classification of a response into data or
    an error, where a 401 also signs the user out. */
module Api {
  import opened Js
  import opened Http
  import Auth

  const Expired: string := "登录已过期"
  const Forbidden: string := "权限不足"
  const LoginPage: string := "admin-login.html"

  /** The request headers: Content-Type and the caller's headers, and
      `Authorization: Bearer <token>` whenever `getToken()` is truthy. */
  function AdminHeaders(caller: Headers, s: Auth.Store): (h: Headers)
    ensures "Content-Type" in h
    ensures Auth.IsAuthenticated(s) ==> "Authorization" in h && h["Authorization"] == "Bearer " + Auth.GetToken(s).value
    ensures !Auth.IsAuthenticated(s) ==> h == BaseHeaders(caller)
    ensures forall k :: k in caller && k != "Authorization" ==> k in h && h[k] == caller[k]
  {
    var h := BaseHeaders(caller);
    if Auth.IsAuthenticated(s) then h["Authorization" := "Bearer " + Auth.GetToken(s).value] else h
  }

  /** The request's result, the store afterwards, and where the page
      goes. */
  datatype Outcome<D> = Outcome(result: Result<D>, store: Auth.Store, redirect: Option<string>)

  /** `request(url, options)` once `fetch` has settled: the body is parsed
      first; then 401 clears the token and leaves for the login page,
      403 is refused, and the business code decides the rest. Other HTTP
      statuses are not looked at. */
  function Classify<D>(s: Auth.Store, r: Option<Response<D>>): (o: Outcome<D>)
    ensures o.redirect.Some? ==> o.redirect.value == LoginPage
  {
    if r.None? then Outcome(Err(Network), s, None)
    else if r.value.body.None? then Outcome(Err(BadJson), s, None)
    else
      var e := r.value.body.value;
      if r.value.status == 401 then Outcome(Err(Message(Expired)), Auth.ClearToken(s), Some(LoginPage))
      else if r.value.status == 403 then Outcome(Err(Message(MsgOr(e.msg, Forbidden))), s, None)
      else Outcome(ByCode(e), s, None)
  }

  /** Data comes back exactly for a JSON answer with business code 200
      and a status other than 401 and 403, and it is the answer's data. */
  lemma ClassifyOk<D>(s: Auth.Store, r: Option<Response<D>>)
    ensures Classify(s, r).result.Ok? <==>
      r.Some? && r.value.body.Some? && r.value.status != 401 && r.value.status != 403 && r.value.body.value.code == Some(200)
    ensures Classify(s, r).result.Ok? ==> Classify(s, r).result.value == r.value.body.value.data
  {
  }

  /** The store changes only on a JSON 401, and then the user is signed
      out and sent to the login page, whatever the business code said. */
  lemma ClassifySignsOut<D>(s: Auth.Store, r: Option<Response<D>>)
    ensures Classify(s, r).store != s ==> r.Some? && r.value.status == 401
    ensures r.Some? && r.value.status == 401 && r.value.body.Some? ==>
      && !Auth.IsAuthenticated(Classify(s, r).store)
      && Classify(s, r).redirect == Some(LoginPage)
      && Classify(s, r).result == Err(Message(Expired))
  {
    if r.Some? && r.value.status == 401 && r.value.body.Some? {
      Auth.ClearSignsOut(s);
    }
  }

  /** A 401 whose body is not JSON rejects while parsing, before the
      status is looked at: the token stays and no redirect happens. */
  lemma NonJson401KeepsToken<D>(s: Auth.Store, status: int, text: string, ct: Option<string>)
    ensures Classify<D>(s, Some(Response(status, text, ct, None))) == Outcome(Err(BadJson), s, None)
  {
  }

  /** 403 is refused even when the business code is 200, with the
      server's message when it gave one. */
  lemma ForbiddenWins<D>(s: Auth.Store, text: string, ct: Option<string>, e: Envelope<D>)
    ensures Classify(s, Some(Response(403, text, ct, Some(e)))).result ==
      Err(Message(if e.msg.Some? && e.msg.value != "" then e.msg.value else Forbidden))
  {
  }

  /** Any status other than 401 and 403, even a server error, yields the
      data when the body carries code 200. */
  lemma StatusIgnored<D>(s: Auth.Store, status: int, text: string, ct: Option<string>, e: Envelope<D>)
    requires status != 401 && status != 403 && e.code == Some(200)
    ensures Classify(s, Some(Response(status, text, ct, Some(e)))) == Outcome(Ok(e.data), s, None)
  {
  }

  /** `get(url, params)` with the token of the store. */
  function AdminGet(url: string, params: seq<Query.Param>, s: Auth.Store): (r: (Call, Headers))
    ensures r.0 == GetCall(url, params)
    ensures "Authorization" in r.1 <==> Auth.IsAuthenticated(s)
  {
    (GetCall(url, params), AdminHeaders(map[], s))
  }
}
