/** The token store of `auth.js`: a token and the serialised user record
    kept under two keys in each of two scopes, the per-tab session
    storage and the persistent local storage. A state is the pair of key
    maps; every operation is a pure transition on it. */
module Auth {
  import opened Js

  const TokenKey: string := "admin_token"
  const UserInfoKey: string := "admin_userInfo"

  /** The two storage scopes, as key to stored text. */
  datatype Store = Store(session: map<string, string>, local: map<string, string>)

  /** `a || b` over two stored values: the first when it is a non-empty
      string, otherwise the second as it is. */
  function Either(a: Option<string>, b: Option<string>): (r: Option<string>)
    ensures a.Some? && a.value != "" ==> r == a
    ensures a.None? || a.value == "" ==> r == b
  {
    if a.Some? && a.value != "" then a else b
  }

  /** `getToken()`: the session-scope token if it is non-empty, otherwise
      whatever the local scope holds. */
  function GetToken(s: Store): Option<string> {
    Either(Get(s.session, TokenKey), Get(s.local, TokenKey))
  }

  /** `getUserInfo()`, up to `JSON.parse`: the stored user text, session
      scope first, None when neither scope holds a non-empty one. */
  function GetUserInfo(s: Store): (r: Option<string>)
    ensures r.Some? ==> r.value != ""
    ensures UserInfoKey in s.session && s.session[UserInfoKey] != "" ==> r == Some(s.session[UserInfoKey])
    ensures r.None? <==>
      (UserInfoKey !in s.session || s.session[UserInfoKey] == "") && (UserInfoKey !in s.local || s.local[UserInfoKey] == "")
  {
    var text := Either(Get(s.session, UserInfoKey), Get(s.local, UserInfoKey));
    if text.Some? && text.value != "" then text else None
  }

  /** `isAuthenticated()`: `!!getToken()`. */
  predicate IsAuthenticated(s: Store) {
    GetToken(s).Some? && GetToken(s).value != ""
  }

  /** `saveToken(token, userInfo, remember)`; userInfo is the text
      `JSON.stringify` produced. */
  function SaveToken(s: Store, token: string, userInfo: string, remember: bool): (r: Store)
    ensures r.session == s.session[TokenKey := token][UserInfoKey := userInfo]
    ensures remember ==> r.local == s.local[TokenKey := token][UserInfoKey := userInfo]
    ensures !remember ==> r.local == s.local - {TokenKey, UserInfoKey}
  {
    var session := s.session[TokenKey := token][UserInfoKey := userInfo];
    if remember then Store(session, s.local[TokenKey := token][UserInfoKey := userInfo])
    else Store(session, s.local - {TokenKey, UserInfoKey})
  }

  /** `clearToken()`: both keys leave both scopes. */
  function ClearToken(s: Store): (r: Store)
    ensures TokenKey !in r.session && UserInfoKey !in r.session
    ensures TokenKey !in r.local && UserInfoKey !in r.local
  {
    Store(s.session - {TokenKey, UserInfoKey}, s.local - {TokenKey, UserInfoKey})
  }

  /** What a fresh tab or a restarted browser sees: the local scope
      only. */
  function Reopen(s: Store): Store {
    Store(map[], s.local)
  }

  /** After a save the store hands back the saved token and user text,
      and the user counts as signed in when the token is non-empty. */
  lemma SaveThenGet(s: Store, token: string, userInfo: string, remember: bool)
    ensures GetToken(SaveToken(s, token, userInfo, remember)) ==
      if token != "" then Some(token) else if remember then Some(token) else None
    ensures userInfo != "" ==> GetUserInfo(SaveToken(s, token, userInfo, remember)) == Some(userInfo)
    ensures IsAuthenticated(SaveToken(s, token, userInfo, remember)) <==> token != ""
  {
  }

  /** A remembered login survives a restart; a login that was not
      remembered leaves nothing behind in the local scope, not even an
      older remembered token. */
  lemma RememberScope(s: Store, token: string, userInfo: string)
    ensures token != "" ==> GetToken(Reopen(SaveToken(s, token, userInfo, true))) == Some(token)
    ensures GetToken(Reopen(SaveToken(s, token, userInfo, false))) == None
    ensures !IsAuthenticated(Reopen(SaveToken(s, token, userInfo, false)))
    ensures GetUserInfo(Reopen(SaveToken(s, token, userInfo, false))) == None
  {
  }

  /** After `clearToken` nobody is signed in, whatever the store held, and
      keys other than the two are left alone. */
  lemma ClearSignsOut(s: Store)
    ensures GetToken(ClearToken(s)) == None
    ensures !IsAuthenticated(ClearToken(s))
    ensures GetUserInfo(ClearToken(s)) == None
    ensures forall k :: k != TokenKey && k != UserInfoKey ==>
      Get(ClearToken(s).session, k) == Get(s.session, k) &&
      Get(ClearToken(s).local, k) == Get(s.local, k)
    ensures ClearToken(ClearToken(s)) == ClearToken(s)
  {
  }

  /** Saving never touches other keys of either scope. */
  lemma SaveKeepsOtherKeys(s: Store, token: string, userInfo: string, remember: bool, k: string)
    requires k != TokenKey && k != UserInfoKey
    ensures Get(SaveToken(s, token, userInfo, remember).session, k) == Get(s.session, k)
    ensures Get(SaveToken(s, token, userInfo, remember).local, k) == Get(s.local, k)
  {
  }

  /** The session scope wins over the local one: a later save without
      remember shadows a remembered token of another user in this tab. */
  lemma SessionWins(s: Store, token: string)
    requires token != ""
    requires Get(s.session, TokenKey) == Some(token)
    ensures GetToken(s) == Some(token)
  {
  }

  // -----------------------------------------------------------------------
  // logout

  /** The server call `logout()` makes, if any, and the state it leaves. */
  datatype LogoutRun = LogoutRun(bearer: Option<string>, after: Store, redirect: string)

  /** `logout()`: a POST carrying the token when one is present, whose
      outcome is ignored; then the store is cleared and the page goes to
      the login page. */
  function Logout(s: Store, serverFails: bool): (r: LogoutRun)
    ensures r.bearer.Some? <==> IsAuthenticated(s)
    ensures r.bearer.Some? ==> r.bearer.value == "Bearer " + GetToken(s).value
    ensures r.after == ClearToken(s)
    ensures r.redirect == "admin-login.html"
  {
    var token := GetToken(s);
    var bearer := if token.Some? && token.value != "" then Some("Bearer " + token.value) else None;
    LogoutRun(bearer, ClearToken(s), "admin-login.html")
  }

  /** Logging out always signs out, whether or not the server call
      failed. */
  lemma LogoutSignsOut(s: Store, serverFails: bool)
    ensures !IsAuthenticated(Logout(s, serverFails).after)
    ensures Logout(s, serverFails).after == Logout(s, !serverFails).after
  {
    ClearSignsOut(s);
  }
}
