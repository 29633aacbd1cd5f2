/** The authentication middleware (middleware/authenticate.go): which
    paths need no login, reading the signed-in user from the session
    cookie, and the forced completion of a password change. */
module Authentication {
  import opened Wrappers
  import opened Errors
  import opened Constants
  import opened Records
  import opened Strconv
  import opened Requests

  const STATUS_UNAUTHORIZED := 401
  const PLEASE_LOG_IN := "Please log in"
  const FINISH_PASSWORD_CHANGE := "Please finish changing your password"

  /** ExemptFromAuth: the home page, sign in and out, static files, the
      favicon, error pages and the password-reset link need no login. */
  predicate ExemptFromAuth(p: string) {
    || p == "/"
    || p == "/users/sign_in"
    || p == "/users/sign_out"
    || HasPrefix(p, "/static")
    || HasPrefix(p, "/favicon")
    || HasPrefix(p, "/error")
    || HasPrefix(p, "/users/complete_password_reset/")
  }

  /** Prefixes cover their sub-paths. */
  lemma ExemptSubPaths(rest: string)
    ensures ExemptFromAuth("/error" + rest)
    ensures ExemptFromAuth("/users/complete_password_reset/" + rest)
  {
    assert ("/error" + rest)[..6] == "/error";
    assert ("/users/complete_password_reset/" + rest)[..31] == "/users/complete_password_reset/";
  }

  /** Exact matches are exact: any sub-path of the sign-in page, and the
      reset link without its id, need a login. */
  lemma NotExemptPaths(rest: string)
    requires rest != ""
    ensures !ExemptFromAuth("/users/sign_in/" + rest)
    ensures !ExemptFromAuth("/users/complete_password_reset")
  {
    var p := "/users/sign_in/" + rest;
    assert p[1] == 'u' && p[7] == 's' && |p| >= 16;
    NoPrefixAt(p, "/static", 1);
    NoPrefixAt(p, "/favicon", 1);
    NoPrefixAt(p, "/error", 1);
    NoPrefixAt(p, "/users/complete_password_reset/", 7);
    assert |"/users/sign_in"| == 14 && |"/users/sign_out"| == 15;
    var q := "/users/complete_password_reset";
    assert q[1] == 'u' && |q| == 30;
    NoPrefixAt(q, "/static", 1);
    NoPrefixAt(q, "/favicon", 1);
    NoPrefixAt(q, "/error", 1);
    assert q != "/" && q != "/users/sign_in" && q != "/users/sign_out";
  }

  /** A string that differs from `prefix` at some position does not start
      with it. */
  lemma NoPrefixAt(s: string, prefix: string, i: nat)
    requires i < |prefix| && i < |s| && s[i] != prefix[i]
    ensures !HasPrefix(s, prefix)
  {
  }

  /** Every change-password page needs a login. */
  lemma ChangePasswordNeedsLogin(rest: string)
    ensures !ExemptFromAuth("/users/change_password/" + rest)
  {
    var p := "/users/change_password/" + rest;
    assert p[1] == 'u' && p[7] == 'c' && p[8] == 'h' && |p| >= 23;
    NoPrefixAt(p, "/static", 1);
    NoPrefixAt(p, "/favicon", 1);
    NoPrefixAt(p, "/error", 1);
    NoPrefixAt(p, "/users/complete_password_reset/", 8);
    assert |"/users/sign_in"| == 14 && |"/users/sign_out"| == 15;
  }

  /** forceCompletionOfPasswordChange: a signed-in user holding a reset
      token may only reach the change-password and error pages. */
  predicate ForceCompletionOfPasswordChange(p: string, user: User?)
    reads user
  {
    user != null
    && user.resetPasswordToken != ""
    && !HasPrefix(p, "/users/change_password/")
    && !HasPrefix(p, "/errors/show/")
  }

  /** Nobody is sent away from the pages that finish the change. */
  lemma ChangePasswordPagesReachable(p: string, user: User?)
    requires HasPrefix(p, "/users/change_password/") || HasPrefix(p, "/errors/show/")
    ensures !ForceCompletionOfPasswordChange(p, user)
  {
  }

  /** A signed-in user with a reset token is stopped on any other page. */
  lemma ResetTokenForcesChange(p: string, user: User)
    requires user.resetPasswordToken != ""
    requires !HasPrefix(p, "/users/change_password/") && !HasPrefix(p, "/errors/show/")
    ensures ForceCompletionOfPasswordChange(p, user)
  {
  }

  /** GetUserFromSession's two results. */
  datatype SessionUser = SessionUser(user: User?, err: Option<Error>)

  /** GetUserFromSession: no cookie is http.ErrNoCookie, a cookie that does
      not decode is ErrDecodeCookie, a value that is not a 64-bit integer
      is ErrWrongDataType. After that the lookup's error is assigned to the
      `err` that `:=` declared inside the block, so the function returns
      the outer, nil error: a failed lookup gives a nil user and no error.
      `decode` stands for the secure cookie codec. */
  function GetUserFromSession(cookie: Option<string>, decode: string -> Option<string>, db: Store)
    : (r: SessionUser)
    ensures r.err.Some? ==> r.user == null
    ensures r.err == Some(NoCookie) <==> cookie.None?
    ensures r.err == Some(DecodeCookie) <==> cookie.Some? && decode(cookie.value).None?
    ensures r.err == Some(WrongDataType) <==>
      cookie.Some? && decode(cookie.value).Some? && ParseInt(decode(cookie.value).value).None?
    ensures r.err.None? <==>
      cookie.Some? && decode(cookie.value).Some? && ParseInt(decode(cookie.value).value).Some?
    ensures r.user != null ==> r.user in db.users.Values
  {
    match cookie
    case None => SessionUser(null, Some(NoCookie))
    case Some(c) =>
      match decode(c)
      case None => SessionUser(null, Some(DecodeCookie))
      case Some(value) =>
        match ParseInt(value)
        case None => SessionUser(null, Some(WrongDataType))
        case Some(userID) =>
          match db.UserByID(userID)
          case Some(u) => SessionUser(u, None)
          case None => SessionUser(null, None)
  }

  /** A session cookie holding a user's id, as %d prints it, signs in that
      user. */
  lemma SessionRoundTrip(cookie: string, decode: string -> Option<string>, db: Store, id: int)
    requires MIN_INT64 <= id <= MAX_INT64 && id in db.users
    requires decode(cookie) == Some(FormatInt(id))
    ensures GetUserFromSession(Some(cookie), decode, db) == SessionUser(db.users[id], None)
  {
    ParseFormat(id);
  }

  /** The shadowed error: a well-formed session naming no user is not an
      error, and the request goes on with a nil user. */
  lemma UnknownUserIsNoError(cookie: string, decode: string -> Option<string>, db: Store, id: int)
    requires MIN_INT64 <= id <= MAX_INT64 && id !in db.users
    requires decode(cookie) == Some(FormatInt(id))
    ensures GetUserFromSession(Some(cookie), decode, db) == SessionUser(null, None)
  {
    ParseFormat(id);
  }

  /** GetUserFromSession as meant: the lookup's error is returned, so a
      session naming no user is pg.ErrNoRows. */
  function GetUserFromSessionIntended(cookie: Option<string>, decode: string -> Option<string>, db: Store)
    : (r: SessionUser)
  {
    var s := GetUserFromSession(cookie, decode, db);
    if s.err.None? && s.user == null then SessionUser(null, Some(NoRows)) else s
  }

  /** With the lookup error returned, no error means a stored user; the
      two versions differ exactly on a well-formed session naming nobody. */
  lemma IntendedSessionHasUser(cookie: Option<string>, decode: string -> Option<string>, db: Store)
    ensures var r := GetUserFromSessionIntended(cookie, decode, db);
      r.err.None? ==> r.user != null && r.user in db.users.Values
    ensures GetUserFromSessionIntended(cookie, decode, db) != GetUserFromSession(cookie, decode, db) <==>
      && cookie.Some? && decode(cookie.value).Some? && ParseInt(decode(cookie.value).value).Some?
      && ParseInt(decode(cookie.value).value).value !in db.users
  {
  }

  /** Authenticate: on a path that needs a login, a session error answers
      401 "Please log in" and aborts, and otherwise the session's user
      becomes CurrentUser. The user checked for a forced password change
      is that user, and nil on an exempt path; a forced change answers 401
      and aborts. */
  method Authenticate(c: Context, decode: string -> Option<string>, db: Store)
    modifies c`currentUser, c`responses, c`aborted
    ensures ExemptFromAuth(c.fullPath) ==>
      c.currentUser == old(c.currentUser) && c.responses == old(c.responses) && c.aborted == old(c.aborted)
    ensures !ExemptFromAuth(c.fullPath) ==>
      var s := GetUserFromSession(c.sessionCookie, decode, db);
      && (s.err.Some? ==>
            && c.currentUser == old(c.currentUser)
            && c.responses == old(c.responses) + [ErrorPage(STATUS_UNAUTHORIZED, PLEASE_LOG_IN)]
            && c.aborted)
      && (s.err.None? && ForceCompletionOfPasswordChange(c.fullPath, s.user) ==>
            && c.currentUser == Some(s.user)
            && c.responses == old(c.responses) + [ErrorPage(STATUS_UNAUTHORIZED, FINISH_PASSWORD_CHANGE)]
            && c.aborted)
      && (s.err.None? && !ForceCompletionOfPasswordChange(c.fullPath, s.user) ==>
            && c.currentUser == Some(s.user)
            && c.responses == old(c.responses) && c.aborted == old(c.aborted))
  {
    var user: User? := null;
    var err: Option<Error> := None;
    if !ExemptFromAuth(c.fullPath) {
      var s := GetUserFromSession(c.sessionCookie, decode, db);
      user, err := s.user, s.err;
      if err.Some? {
        c.Respond(ErrorPage(STATUS_UNAUTHORIZED, PLEASE_LOG_IN), true);
      } else {
        c.SetCurrentUser(user);
      }
    }
    if ForceCompletionOfPasswordChange(c.fullPath, user) {
      c.Respond(ErrorPage(STATUS_UNAUTHORIZED, FINISH_PASSWORD_CHANGE), true);
    }
  }
}
