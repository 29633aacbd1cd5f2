/** The older authentication middleware (middleware/auth.go). Its session
    lookup is the same code as the newer one's, so GetUserFromSession is
    shared; its exemption list is shorter. */
module LegacyAuth {
  import opened Wrappers
  import opened Errors
  import opened Constants
  import opened Records
  import opened Requests
  import Authentication

  const STATUS_UNAUTHORIZED := 401

  /** ExemptFromAuth: the home page, sign in, static files and the favicon. */
  predicate ExemptFromAuth(p: string) {
    p == "/" || p == "/users/sign_in" || HasPrefix(p, "/static") || HasPrefix(p, "/favicon")
  }

  /** Every path the older rule exempts, the newer rule exempts too. */
  lemma NewerRuleExemptsMore(p: string)
    requires ExemptFromAuth(p)
    ensures Authentication.ExemptFromAuth(p)
  {
  }

  /** The older rule is strictly stronger: signing out and every error
      page need a login under it. */
  lemma OlderRuleIsStricter(rest: string)
    ensures !ExemptFromAuth("/users/sign_out") && Authentication.ExemptFromAuth("/users/sign_out")
    ensures !ExemptFromAuth("/error" + rest) && Authentication.ExemptFromAuth("/error" + rest)
  {
    assert "/users/sign_out"[1] == 'u';
    var p := "/error" + rest;
    assert p[1] == 'e' && |p| >= 6;
    Authentication.NoPrefixAt(p, "/static", 1);
    Authentication.NoPrefixAt(p, "/favicon", 1);
    Authentication.ExemptSubPaths(rest);
  }

  /** Auth: on a path that needs a login, a session error aborts with a
      bare 401 and otherwise the session's user becomes CurrentUser; an
      exempt path is left alone. */
  method Auth(c: Context, decode: string -> Option<string>, db: Store)
    modifies c`currentUser, c`responses, c`aborted
    ensures ExemptFromAuth(c.fullPath) ==>
      c.currentUser == old(c.currentUser) && c.responses == old(c.responses) && c.aborted == old(c.aborted)
    ensures !ExemptFromAuth(c.fullPath) ==>
      var s := Authentication.GetUserFromSession(c.sessionCookie, decode, db);
      && (s.err.Some? ==>
            && c.currentUser == old(c.currentUser)
            && c.responses == old(c.responses) + [StatusOnly(STATUS_UNAUTHORIZED)]
            && c.aborted)
      && (s.err.None? ==>
            && c.currentUser == Some(s.user)
            && c.responses == old(c.responses) && c.aborted == old(c.aborted))
  {
    if !ExemptFromAuth(c.fullPath) {
      var s := Authentication.GetUserFromSession(c.sessionCookie, decode, db);
      if s.err.Some? {
        c.Respond(StatusOnly(STATUS_UNAUTHORIZED), true);
      } else {
        c.SetCurrentUser(s.user);
      }
    }
  }
}
