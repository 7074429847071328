/**
 * Authentication state (`TelecoursAuth`): whether the session is logged in and the
 * cookies last captured from the browser context. Navigations are outcomes given as
 * parameters.
 */
module Auth {
  import opened Wrappers
  import opened Configuration

  /** One entry of `context.cookies()`. */
  datatype Cookie = Cookie(name: string, value: string)

  /** `{cookie['name']: cookie['value'] for cookie in cookies_playwright}` */
  function CookieMap(cs: seq<Cookie>): (m: map<string, string>)
    ensures forall k :: k in m <==> exists i :: 0 <= i < |cs| && cs[i].name == k
  {
    if cs == [] then map[]
    else
      var n := |cs| - 1;
      var prev := CookieMap(cs[..n]);
      assert forall i :: 0 <= i < n ==> cs[..n][i] == cs[i];
      prev[cs[n].name := cs[n].value]
  }

  /** A name that occurs several times maps to the value of its last occurrence. */
  lemma {:induction false} CookieMapLastWins(cs: seq<Cookie>, i: nat)
    requires i < |cs|
    requires forall j :: i < j < |cs| ==> cs[j].name != cs[i].name
    ensures CookieMap(cs)[cs[i].name] == cs[i].value
  {
    var n := |cs| - 1;
    if i < n {
      assert cs[..n][i] == cs[i];
      CookieMapLastWins(cs[..n], i);
    }
  }

  class TelecoursAuth {
    const config: TelecoursConfig
    var cookies: map<string, string>
    var isAuthenticated: bool

    /** A fresh session: no cookie, not logged in. */
    constructor(config: TelecoursConfig)
      ensures this.config == config
      ensures cookies == map[] && !isAuthenticated
    {
      this.config := config;
      cookies := map[];
      isAuthenticated := false;
    }

    /** `login`: without both credentials nothing is opened; otherwise the login page is
        opened and then the form submitted, and the session is logged in exactly when both
        navigations succeed. A failure leaves the state as it was. `navigations` is how
        many navigations were started. */
    method Login(loginPageOk: bool, submitOk: bool) returns (ok: bool, navigations: nat)
      modifies this
      ensures ok <==> config.HasCredentials() && loginPageOk && submitOk
      ensures navigations == (if !config.HasCredentials() then 0 else if !loginPageOk then 1 else 2)
      ensures isAuthenticated == (old(isAuthenticated) || ok)
      ensures cookies == old(cookies)
    {
      if !config.HasCredentials() {
        return false, 0;
      }
      navigations := 1;
      if !loginPageOk {
        return false, navigations;
      }
      navigations := 2;
      if !submitOk {
        return false, navigations;
      }
      isAuthenticated := true;
      return true, navigations;
    }

    /** `hook_after_goto`: the cookies are replaced by those the context reports, or kept
        when reading them raised (`captured` is `None`); the page is handed back either way. */
    method AfterGoto<P>(page: P, captured: Option<seq<Cookie>>) returns (r: P)
      modifies this
      ensures r == page
      ensures captured.Some? ==> cookies == CookieMap(captured.value)
      ensures captured.None? ==> cookies == old(cookies)
      ensures isAuthenticated == old(isAuthenticated)
    {
      if captured.Some? {
        cookies := CookieMap(captured.value);
      }
      return page;
    }
  }
}
