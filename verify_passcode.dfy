/** The passcode check behind the welcome screen (`POST /api/verify-passcode`):
    a chain of guarded early returns over the request, the environment and
    the stored `ADMIN_PASSCODE`. Nothing is updated. */
module VerifyPasscode {
  import opened Js
  import ConfigApi

  /** The request as the handler reads it: method and the body's `passcode`. */
  datatype Request = Request(httpMethod: string, passcode: Option<string>)

  datatype Body = Error(message: string) | Verified

  datatype Response = Response(status: int, body: Body)

  const METHOD_NOT_ALLOWED := Response(405, Error("Method not allowed"))
  const PASSCODE_REQUIRED := Response(400, Error("Passcode is required"))
  const CONFIG_ERROR := Response(500, Error("Server configuration error"))
  const UNAVAILABLE := Response(500, Error("Verification service unavailable"))
  const INVALID := Response(401, Error("Invalid passcode"))
  const SUCCESS := Response(200, Verified)

  /** The handler's answer given the lookup of the stored passcode (an error
      covers both a failing store and a missing row, as `.single()` reports
      either as an error). It answers 200 exactly when everything is in
      place and the passcode equals the stored one; a lookup error is never
      read as a match. */
  function Verify(req: Request, env: ConfigApi.Env, stored: ConfigApi.Lookup): (r: Response)
    ensures r.status == 200 <==>
      req.httpMethod == "POST" && Truthy(req.passcode) && ConfigApi.Configured(env) &&
      stored == ConfigApi.Found(req.passcode.value)
    ensures r.status == 200 ==> r == SUCCESS
    ensures req.httpMethod != "POST" ==> r == METHOD_NOT_ALLOWED
    ensures req.httpMethod == "POST" && !Truthy(req.passcode) ==> r == PASSCODE_REQUIRED
    ensures req.httpMethod == "POST" && Truthy(req.passcode) && !ConfigApi.Configured(env) ==> r == CONFIG_ERROR
    ensures req.httpMethod == "POST" && Truthy(req.passcode) && ConfigApi.Configured(env) ==>
      (stored.LookupError? ==> r == UNAVAILABLE) &&
      (stored.Found? && stored.value != req.passcode.value ==> r == INVALID)
    ensures r.status in {200, 400, 401, 405, 500}
  {
    if req.httpMethod != "POST" then METHOD_NOT_ALLOWED
    else if !Truthy(req.passcode) then PASSCODE_REQUIRED
    else if !ConfigApi.Configured(env) then CONFIG_ERROR
    else match stored
      case LookupError => UNAVAILABLE
      case Found(value) => if req.passcode.value == value then SUCCESS else INVALID
  }

  /** Fail secure: when the store fails, no request is answered 200. */
  lemma StoreFailureNeverVerifies(req: Request, env: ConfigApi.Env, rows: seq<ConfigApi.Row>)
    ensures Verify(req, env, ConfigApi.LookupPasscode(rows, true)).status != 200
  {
  }

  /** The two endpoints agree: a passcode the welcome screen verifies against
      a table is accepted as the admin header by the config endpoint on the
      same table, and conversely whenever both are configured and the lookup
      succeeds. They differ only when no `ADMIN_PASSCODE` row exists or the
      store fails: 500 here, 401 there. */
  lemma VerifiedIsAdmitted(req: Request, env: ConfigApi.Env, table: ConfigApi.ConfigTable, fails: bool)
    requires req.httpMethod == "POST" && ConfigApi.Configured(env)
    ensures Verify(req, env, ConfigApi.LookupPasscode(table.rows, fails)) == SUCCESS <==>
      Truthy(req.passcode) && table.PasscodeAccepted(req.passcode.value, fails)
    ensures Truthy(req.passcode) && (fails || ConfigApi.Find(table.rows, ConfigApi.ADMIN_PASSCODE).None?) ==>
      Verify(req, env, ConfigApi.LookupPasscode(table.rows, fails)) == UNAVAILABLE
  {
  }
}
