/** The user handlers' guards and the columns they change
    (web/users_controller.go): who may change a password, changing it,
    the password-reset link, signing in and issuing an API key. A handler
    is a method on the request context and the users it touches; saving a
    user is the change to the object itself. The signed-in user reaches a
    handler as a non-nil User. */
module UsersController {
  import opened Wrappers
  import opened Errors
  import opened Constants
  import opened Records
  import opened Password
  import opened Strconv
  import opened Requests
  import ApiErrors
  import Authentication

  const ERR_PASSWORDS_DONT_MATCH := "Passwords don't match."
  const SIGN_IN_PAGE := "/users/sign_in"
  const SIGN_IN_TEMPLATE := "users/sign_in.html"
  const DASHBOARD := "/dashboard"
  const CHOOSE_SECOND_FACTOR := "/users/choose_second_factor"
  const RESET_INITIATED_TEMPLATE := "users/reset_password_initiated.html"
  const API_KEY_TEMPLATE := "users/show_api_key.html"

  /** The response AbortIfError writes for an error. */
  function ErrorResponse(err: Error): Response {
    ErrorJson(ApiErrors.StatusCodeForError(err), err)
  }

  // ---------------------------------------------------------------------
  // Who may change a password

  /** Editing oneself, holding UserUpdate at the target's institution, or
      being a system administrator. */
  predicate MayEditPassword(current: User, target: User, resourceID: int, hasPermission: PermissionTest) {
    || current.id == resourceID
    || hasPermission(current, USER_UPDATE, target.institutionID)
    || current.IsAdmin()
  }

  /** reqAndUserForPwdEdit: the user the request names, if the current
      user may change that user's password; a failed lookup is its own
      error, and anyone else is ErrPermissionDenied. */
  function UserForPasswordEdit(current: User, resourceID: int, db: Store, hasPermission: PermissionTest)
    : (r: Result<User, Error>)
    ensures r.Ok? <==>
      resourceID in db.users && MayEditPassword(current, db.users[resourceID], resourceID, hasPermission)
    ensures r.Ok? ==> r.value == db.users[resourceID] && r.value in db.users.Values
    ensures r.Err? ==> r.error == if resourceID in db.users then PermissionDenied else NoRows
  {
    match db.UserByID(resourceID)
    case None => Err(NoRows)
    case Some(target) =>
      if MayEditPassword(current, target, resourceID, hasPermission) then Ok(target)
      else Err(PermissionDenied)
  }

  /** A user may always change their own password, a system administrator
      anyone's; an ordinary user without UserUpdate at the target's
      institution nobody else's. */
  lemma PasswordEditRule(current: User, resourceID: int, db: Store, hasPermission: PermissionTest)
    requires resourceID in db.users
    ensures current.id == resourceID ==> UserForPasswordEdit(current, resourceID, db, hasPermission).Ok?
    ensures current.IsAdmin() ==> UserForPasswordEdit(current, resourceID, db, hasPermission).Ok?
    ensures current.id != resourceID && !current.IsAdmin()
            && !hasPermission(current, USER_UPDATE, db.users[resourceID].institutionID) ==>
      UserForPasswordEdit(current, resourceID, db, hasPermission) == Err(PermissionDenied)
  {
  }

  // ---------------------------------------------------------------------
  // Changing a password

  /** UserChangePassword's guards in order: the edit permission, the two
      passwords matching, the password requirements, the encryption. */
  function ChangePasswordError(edit: Result<User, Error>, pwd: string, confirm: string,
                               meetsRequirements: string -> bool, salt: Option<Salt>)
    : (err: Option<Error>)
    ensures edit.Err? ==> err == Some(edit.error)
    ensures edit.Ok? && pwd != confirm ==> err == Some(Message(ERR_PASSWORDS_DONT_MATCH))
    ensures edit.Ok? ==> (err == Some(PasswordReqs) <==> pwd == confirm && !meetsRequirements(pwd))
    ensures err.None? <==> edit.Ok? && pwd == confirm && meetsRequirements(pwd) && salt.Some?
  {
    if edit.Err? then Some(edit.error)
    else if pwd != confirm then Some(Message(ERR_PASSWORDS_DONT_MATCH))
    else if !meetsRequirements(pwd) then Some(PasswordReqs)
    else EncryptPassword(pwd, salt).err
  }

  /** The columns a successful change sets: the new digest, the change
      time, and no pending reset. */
  function PasswordChanged(cols: UserColumns, digest: string, now: int): UserColumns {
    cols.(encryptedPassword := digest, passwordChangedAt := now, resetPasswordToken := "",
          resetPasswordSentAt := 0)
  }

  /** After a change the new password is the one that signs in, and no
      page forces another change. */
  lemma ChangedPasswordWorks(u: User, cols: UserColumns, pwd: string, salt: Salt, now: int, path: string)
    requires u.Columns() == PasswordChanged(cols, EncryptPassword(pwd, Some(salt)).digest, now)
    ensures ComparePasswords(u.encryptedPassword, pwd)
    ensures !Authentication.ForceCompletionOfPasswordChange(path, u)
  {
    CompareEncrypted(pwd, salt);
  }

  /** The four assignments of a successful change. */
  method SetPasswordChanged(user: User, digest: string, now: int)
    modifies user
    ensures user.Columns() == PasswordChanged(old(user.Columns()), digest, now)
  {
    user.encryptedPassword := digest;
    user.passwordChangedAt := now;
    user.resetPasswordToken := "";
    user.resetPasswordSentAt := 0;
  }

  /** Where a changed password leads: the user's page for someone allowed
      to read it, the dashboard otherwise. */
  function PasswordChangeRedirect(current: User, target: User, hasPermission: PermissionTest): string {
    if hasPermission(current, USER_READ, target.institutionID) then "/users/show/" + FormatInt(target.id)
    else DASHBOARD
  }

  /** UserChangePassword: any failing guard answers with its error and
      changes no user; otherwise the target's password columns change and
      nothing else, and the response is a redirect. */
  method UserChangePassword(c: Context, current: User, resourceID: int, db: Store,
                            hasPermission: PermissionTest, meetsRequirements: string -> bool,
                            salt: Option<Salt>, now: int)
    modifies c`responses, c`aborted, db.users.Values
    ensures var edit := UserForPasswordEdit(current, resourceID, db, hasPermission);
      var pwd := c.PostForm("NewPassword");
      var err := ChangePasswordError(edit, pwd, c.PostForm("ConfirmNewPassword"), meetsRequirements, salt);
      && (err.Some? ==>
            && unchanged(db.users.Values)
            && c.responses == old(c.responses) + [ErrorResponse(err.value)]
            && c.aborted)
      && (err.None? ==>
            && edit.value.Columns() ==
                 PasswordChanged(old(edit.value.Columns()), EncryptPassword(pwd, salt).digest, now)
            && unchanged(db.users.Values - {edit.value})
            && c.responses == old(c.responses) +
                 [Redirect(STATUS_FOUND, PasswordChangeRedirect(current, edit.value, hasPermission))]
            && c.aborted == old(c.aborted))
  {
    var edit := UserForPasswordEdit(current, resourceID, db, hasPermission);
    var stop := c.AbortIfError(if edit.Err? then Some(edit.error) else None);
    if stop {
      return;
    }
    var userToEdit := edit.value;
    var pwd := c.PostForm("NewPassword");
    var confirm := c.PostForm("ConfirmNewPassword");
    if pwd != confirm {
      stop := c.AbortIfError(Some(Message(ERR_PASSWORDS_DONT_MATCH)));
      return;
    }
    if !meetsRequirements(pwd) {
      stop := c.AbortIfError(Some(PasswordReqs));
      return;
    }
    var encPassword := EncryptPassword(pwd, salt);
    stop := c.AbortIfError(encPassword.err);
    if stop {
      return;
    }
    SetPasswordChanged(userToEdit, encPassword.digest, now);
    c.Respond(Redirect(STATUS_FOUND, PasswordChangeRedirect(current, userToEdit, hasPermission)), false);
  }

  // ---------------------------------------------------------------------
  // Password reset

  /** The columns a reset request sets: the encrypted token and the
      forced update. */
  function ResetRequested(cols: UserColumns, encryptedToken: string): UserColumns {
    cols.(resetPasswordToken := encryptedToken, forcePasswordUpdate := true)
  }

  /** The two assignments of a reset request. */
  method SetResetRequested(user: User, encryptedToken: string)
    modifies user
    ensures user.Columns() == ResetRequested(old(user.Columns()), encryptedToken)
  {
    user.resetPasswordToken := encryptedToken;
    user.forcePasswordUpdate := true;
  }

  /** A user with a pending reset is sent to the change-password page from
      everywhere else. */
  lemma ResetForcesPasswordChange(u: User, cols: UserColumns, token: string, salt: Salt, path: string)
    requires u.Columns() == ResetRequested(cols, EncryptPassword(token, Some(salt)).digest)
    requires !HasPrefix(path, "/users/change_password/") && !HasPrefix(path, "/errors/show/")
    ensures Authentication.ForceCompletionOfPasswordChange(path, u)
  {
    assert LooksEncrypted(u.resetPasswordToken);
  }

  /** UserInitPasswordReset: a reset for a user whose password the current
      user may change stores the encrypted token and forces an update;
      an edit or encryption error changes no user. `tokenBytes` are the
      random bytes of the emailed token. */
  method UserInitPasswordReset(c: Context, current: User, resourceID: int, db: Store,
                               hasPermission: PermissionTest, tokenBytes: seq<Byte>, salt: Option<Salt>)
    requires |tokenBytes| == 16
    modifies c`responses, c`aborted, db.users.Values
    ensures var edit := UserForPasswordEdit(current, resourceID, db, hasPermission);
      var encrypted := EncryptPassword(RandomToken(tokenBytes), salt);
      && (edit.Err? ==>
            unchanged(db.users.Values) && c.responses == old(c.responses) + [ErrorResponse(edit.error)] && c.aborted)
      && (edit.Ok? && encrypted.err.Some? ==>
            && unchanged(db.users.Values)
            && c.responses == old(c.responses) + [ErrorResponse(encrypted.err.value)] && c.aborted)
      && (edit.Ok? && encrypted.err.None? ==>
            && edit.value.Columns() == ResetRequested(old(edit.value.Columns()), encrypted.digest)
            && unchanged(db.users.Values - {edit.value})
            && c.responses == old(c.responses) + [Page(STATUS_OK, RESET_INITIATED_TEMPLATE)]
            && c.aborted == old(c.aborted))
  {
    var edit := UserForPasswordEdit(current, resourceID, db, hasPermission);
    var stop := c.AbortIfError(if edit.Err? then Some(edit.error) else None);
    if stop {
      return;
    }
    var userToEdit := edit.value;
    var token := RandomToken(tokenBytes);
    var encryptedToken := EncryptPassword(token, salt);
    stop := c.AbortIfError(encryptedToken.err);
    if stop {
      return;
    }
    SetResetRequested(userToEdit, encryptedToken.digest);
    c.Respond(Page(STATUS_OK, RESET_INITIATED_TEMPLATE), false);
  }

  /** createNewUserAlert: the same reset columns for a new user; an
      encryption error is returned and changes nothing. */
  method CreateNewUserAlert(newUser: User, tokenBytes: seq<Byte>, salt: Option<Salt>)
    returns (err: Option<Error>)
    requires |tokenBytes| == 16
    modifies newUser
    ensures var encrypted := EncryptPassword(RandomToken(tokenBytes), salt);
      && err == encrypted.err
      && (err.Some? ==> unchanged(newUser))
      && (err.None? ==> newUser.Columns() == ResetRequested(old(newUser.Columns()), encrypted.digest))
  {
    var token := RandomToken(tokenBytes);
    var encryptedToken := EncryptPassword(token, salt);
    if encryptedToken.err.Some? {
      return encryptedToken.err;
    }
    SetResetRequested(newUser, encryptedToken.digest);
    err := None;
  }

  /** The user `id` exists, is active and holds the reset token `token`. */
  predicate ActiveWithToken(db: Store, id: int, token: string)
    reads db.users.Values
  {
    id in db.users && db.users[id].deactivatedAt == 0 && ComparePasswords(db.users[id].resetPasswordToken, token)
  }

  /** UserCompletePasswordReset's guards in order: a non-zero numeric id,
      a token, the user, an active account, the token matching the stored
      one. */
  function ResetUser(c: Context, db: Store): (r: Result<User, Error>)
    reads db.users.Values
    ensures (ParseInt(c.Param("id")).None? || ParseInt(c.Param("id")).value == 0) ==> r == Err(InvalidParam)
    ensures ParseInt(c.Param("id")).Some? && ParseInt(c.Param("id")).value != 0 && c.Query("token") == "" ==>
      r == Err(InvalidToken)
    ensures r.Ok? ==>
      && ParseInt(c.Param("id")).Some? && ParseInt(c.Param("id")).value in db.users
      && db.users[ParseInt(c.Param("id")).value] == r.value
      && r.value.deactivatedAt == 0
      && ComparePasswords(r.value.resetPasswordToken, c.Query("token"))
    ensures ParseInt(c.Param("id")).Some? && ParseInt(c.Param("id")).value != 0 && c.Query("token") != "" ==>
      var id := ParseInt(c.Param("id")).value;
      && (id !in db.users ==> r == Err(NoRows))
      && (id in db.users && db.users[id].deactivatedAt != 0 ==> r == Err(AccountDeactivated))
      && (ActiveWithToken(db, id, c.Query("token")) ==> r == Ok(db.users[id]))
      && (id in db.users && db.users[id].deactivatedAt == 0 && !ActiveWithToken(db, id, c.Query("token")) ==>
            r == Err(InvalidToken))
  {
    var userID := ParseInt(c.Param("id"));
    if userID.None? || userID.value == 0 then Err(InvalidParam)
    else
      var token := c.Query("token");
      if token == "" then Err(InvalidToken)
      else
        match db.UserByID(userID.value)
        case None => Err(NoRows)
        case Some(user) =>
          if user.deactivatedAt != 0 then Err(AccountDeactivated)
          else if !ComparePasswords(user.resetPasswordToken, token) then Err(InvalidToken)
          else Ok(user)
  }

  /** The link a reset sends, carrying the user's id and the plain token,
      passes every guard for an active account. */
  lemma ResetLinkPasses(c: Context, db: Store, u: User, tokenBytes: seq<Byte>, salt: Salt)
    requires |tokenBytes| == 16
    requires 0 < u.id <= MAX_INT64 && u.id in db.users && db.users[u.id] == u && u.deactivatedAt == 0
    requires u.resetPasswordToken == EncryptPassword(RandomToken(tokenBytes), Some(salt)).digest
    requires c.Param("id") == FormatInt(u.id) && c.Query("token") == RandomToken(tokenBytes)
    ensures ResetUser(c, db) == Ok(u)
  {
    ParseFormat(u.id);
    CompareEncrypted(RandomToken(tokenBytes), salt);
  }

  /** The sign-in bookkeeping of a completed reset, as written: the count
      goes up by one, the last IP takes a non-empty current IP, the last
      time is copied only when the current time is zero, and the current
      IP and time are the request's. */
  function SignedIn(cols: UserColumns, ip: string, now: int): (r: UserColumns)
    ensures r.signInCount == cols.signInCount + 1
    ensures r.currentSignInIP == ip && r.currentSignInAt == now
    ensures r.lastSignInIP == if cols.currentSignInIP != "" then cols.currentSignInIP else cols.lastSignInIP
    ensures r.(signInCount := cols.signInCount, lastSignInIP := cols.lastSignInIP,
               lastSignInAt := cols.lastSignInAt, currentSignInIP := cols.currentSignInIP,
               currentSignInAt := cols.currentSignInAt) == cols
  {
    cols.(signInCount := cols.signInCount + 1,
          lastSignInIP := if cols.currentSignInIP != "" then cols.currentSignInIP else cols.lastSignInIP,
          lastSignInAt := if cols.currentSignInAt == 0 then cols.currentSignInAt else cols.lastSignInAt,
          currentSignInIP := ip,
          currentSignInAt := now)
  }

  /** The sign-in assignments, in the handler's order. */
  method RecordSignIn(user: User, ip: string, now: int)
    modifies user
    ensures user.Columns() == SignedIn(old(user.Columns()), ip, now)
  {
    user.signInCount := user.signInCount + 1;
    if user.currentSignInIP != "" {
      user.lastSignInIP := user.currentSignInIP;
    }
    if user.currentSignInAt == 0 {
      user.lastSignInAt := user.currentSignInAt;
    }
    user.currentSignInIP := ip;
    user.currentSignInAt := now;
  }

  /** The inverted test: the previous sign-in time is never recorded. A
      user signed in before keeps a stale last time, and a user never
      signed in gets the zero time, which it already had in the zero case. */
  lemma LastSignInAtNotRecorded(cols: UserColumns, ip: string, now: int)
    ensures cols.currentSignInAt != 0 ==> SignedIn(cols, ip, now).lastSignInAt == cols.lastSignInAt
    ensures cols.currentSignInAt == 0 ==> SignedIn(cols, ip, now).lastSignInAt == 0
    ensures cols.currentSignInAt != 0 && cols.lastSignInAt != cols.currentSignInAt ==>
      SignedIn(cols, ip, now).lastSignInAt != cols.currentSignInAt
  {
  }

  /** The sign-in bookkeeping as meant: the last time takes the previous
      current time when there was one. */
  function SignedInIntended(cols: UserColumns, ip: string, now: int): UserColumns {
    SignedIn(cols, ip, now).(lastSignInAt := if cols.currentSignInAt != 0 then cols.currentSignInAt
                                             else cols.lastSignInAt)
  }

  /** Two sign-ins in a row: with the intended bookkeeping the second
      leaves the first's time and address as the last ones; as written,
      the first's time is lost. */
  lemma IntendedSignInRecordsPrevious(cols: UserColumns, ip1: string, t1: int, ip2: string, t2: int)
    requires t1 != 0
    ensures var twice := SignedInIntended(SignedInIntended(cols, ip1, t1), ip2, t2);
      && twice.lastSignInAt == t1 && twice.currentSignInAt == t2
      && (ip1 != "" ==> twice.lastSignInIP == ip1) && twice.currentSignInIP == ip2
      && twice.signInCount == cols.signInCount + 2
    ensures t1 != cols.lastSignInAt ==> SignedIn(SignedIn(cols, ip1, t1), ip2, t2).lastSignInAt != t1
  {
  }

  /** UserCompletePasswordReset: a failing guard answers with its error and
      changes no user; otherwise the user's sign-in columns are updated.
      An error setting the session cookie (`sessionCookieErr`) is then
      answered and the handler stops; without one the user becomes
      CurrentUser and the response leads to the change-password page. */
  method UserCompletePasswordReset(c: Context, db: Store, now: int, sessionCookieErr: Option<Error>)
    modifies c`currentUser, c`responses, c`aborted, db.users.Values
    ensures var r := old(ResetUser(c, db));
      && (r.Err? ==>
            && unchanged(db.users.Values)
            && c.currentUser == old(c.currentUser)
            && c.responses == old(c.responses) + [ErrorResponse(r.error)] && c.aborted)
      && (r.Ok? ==>
            && r.value.Columns() == SignedIn(old(r.value.Columns()), c.clientIP, now)
            && unchanged(db.users.Values - {r.value}))
      && (r.Ok? && sessionCookieErr.Some? ==>
            && c.currentUser == old(c.currentUser)
            && c.responses == old(c.responses) + [ErrorResponse(sessionCookieErr.value)] && c.aborted)
      && (r.Ok? && sessionCookieErr.None? ==>
            && c.currentUser == Some(r.value)
            && c.responses == old(c.responses) +
                 [Redirect(STATUS_FOUND, "/users/change_password/" + FormatInt(r.value.id))]
            && c.aborted == old(c.aborted))
  {
    var r := ResetUser(c, db);
    var stop := c.AbortIfError(if r.Err? then Some(r.error) else None);
    if stop {
      return;
    }
    var user := r.value;
    RecordSignIn(user, c.clientIP, now);
    stop := c.AbortIfError(sessionCookieErr);
    if stop {
      return;
    }
    c.SetCurrentUser(user);
    c.Respond(Redirect(STATUS_FOUND, "/users/change_password/" + FormatInt(user.id)), false);
  }

  // ---------------------------------------------------------------------
  // Signing in

  /** Where a signed-in user goes next. */
  function AfterSignIn(twoFactor: bool): string {
    if twoFactor then CHOOSE_SECOND_FACTOR else DASHBOARD
  }

  /** SignInUser: a failed sign-in is 400 back to the sign-in page; a
      signed-in user awaits a second factor exactly when it is a two-factor
      user; a cookie error is 500, the CSRF cookie's also through
      AbortIfError; otherwise the user becomes CurrentUser and is sent on
      with 302. `signIn` is pgmodels.UserSignIn's result, `isTwoFactor`
      User.IsTwoFactorUser, and the cookie errors those of setting the
      session and CSRF cookies. */
  method SignInUser(c: Context, signIn: Result<User, Error>, isTwoFactor: User -> bool,
                    sessionCookieErr: Option<Error>, csrfCookieErr: Option<Error>)
    returns (status: int, redirectTo: string, err: Option<Error>)
    modifies c`currentUser, c`responses, c`aborted, if signIn.Ok? then {signIn.value} else {}
    ensures signIn.Err? ==>
      && (status, redirectTo, err) == (ApiErrors.STATUS_BAD_REQUEST, SIGN_IN_PAGE, Some(signIn.error))
      && c.currentUser == old(c.currentUser) && c.responses == old(c.responses) && c.aborted == old(c.aborted)
    ensures signIn.Ok? ==>
      var user := signIn.value;
      && user.Columns() == old(user.Columns()).(awaitingSecondFactor := isTwoFactor(user))
      && (sessionCookieErr.Some? ==>
            && (status, redirectTo, err) == (ApiErrors.STATUS_INTERNAL_SERVER_ERROR, SIGN_IN_PAGE, sessionCookieErr)
            && c.currentUser == old(c.currentUser) && c.responses == old(c.responses)
            && c.aborted == old(c.aborted))
      && (sessionCookieErr.None? && csrfCookieErr.Some? ==>
            && (status, redirectTo, err) == (ApiErrors.STATUS_INTERNAL_SERVER_ERROR, SIGN_IN_PAGE, csrfCookieErr)
            && c.currentUser == old(c.currentUser)
            && c.responses == old(c.responses) + [ErrorResponse(csrfCookieErr.value)] && c.aborted)
      && (sessionCookieErr.None? && csrfCookieErr.None? ==>
            && (status, redirectTo, err) == (STATUS_FOUND, AfterSignIn(isTwoFactor(user)), None)
            && c.currentUser == Some(user) && c.responses == old(c.responses) && c.aborted == old(c.aborted))
  {
    redirectTo := SIGN_IN_PAGE;
    if signIn.Err? {
      return ApiErrors.STATUS_BAD_REQUEST, redirectTo, Some(signIn.error);
    }
    var user := signIn.value;
    user.awaitingSecondFactor := isTwoFactor(user);
    if sessionCookieErr.Some? {
      return ApiErrors.STATUS_INTERNAL_SERVER_ERROR, redirectTo, sessionCookieErr;
    }
    var stop := c.AbortIfError(csrfCookieErr);
    if stop {
      return ApiErrors.STATUS_INTERNAL_SERVER_ERROR, redirectTo, csrfCookieErr;
    }
    c.SetCurrentUser(user);
    redirectTo := DASHBOARD;
    if isTwoFactor(user) {
      redirectTo := CHOOSE_SECOND_FACTOR;
    }
    return STATUS_FOUND, redirectTo, None;
  }

  /** UserSignIn: a successful sign-in redirects; a failed one, or one
      whose cookies could not be set, shows the sign-in page again with
      SignInUser's status (400 or 500), after the JSON error AbortIfError
      wrote for a CSRF cookie error. Only a redirect signs the user in. */
  method UserSignIn(c: Context, signIn: Result<User, Error>, isTwoFactor: User -> bool,
                    sessionCookieErr: Option<Error>, csrfCookieErr: Option<Error>)
    modifies c`currentUser, c`responses, c`aborted, if signIn.Ok? then {signIn.value} else {}
    ensures signIn.Err? ==>
      && c.currentUser == old(c.currentUser) && c.aborted == old(c.aborted)
      && c.responses == old(c.responses) + [Page(ApiErrors.STATUS_BAD_REQUEST, SIGN_IN_TEMPLATE)]
    ensures signIn.Ok? ==>
      signIn.value.Columns() == old(signIn.value.Columns()).(awaitingSecondFactor := isTwoFactor(signIn.value))
    ensures signIn.Ok? && sessionCookieErr.Some? ==>
      && c.currentUser == old(c.currentUser) && c.aborted == old(c.aborted)
      && c.responses == old(c.responses) + [Page(ApiErrors.STATUS_INTERNAL_SERVER_ERROR, SIGN_IN_TEMPLATE)]
    ensures signIn.Ok? && sessionCookieErr.None? && csrfCookieErr.Some? ==>
      && c.currentUser == old(c.currentUser) && c.aborted
      && c.responses == old(c.responses) + [ErrorResponse(csrfCookieErr.value),
                                            Page(ApiErrors.STATUS_INTERNAL_SERVER_ERROR, SIGN_IN_TEMPLATE)]
    ensures signIn.Ok? && sessionCookieErr.None? && csrfCookieErr.None? ==>
      && c.currentUser == Some(signIn.value) && c.aborted == old(c.aborted)
      && c.responses == old(c.responses) + [Redirect(STATUS_FOUND, AfterSignIn(isTwoFactor(signIn.value)))]
  {
    var status, redirectTo, err := SignInUser(c, signIn, isTwoFactor, sessionCookieErr, csrfCookieErr);
    if err.None? {
      c.Respond(Redirect(status, redirectTo), false);
    } else {
      c.Respond(Page(status, SIGN_IN_TEMPLATE), false);
    }
  }

  // ---------------------------------------------------------------------
  // API keys

  /** UserGetAPIKey, as written: asking for another user's key answers
      ErrPermissionDenied and aborts, but the handler does not return, so
      a new key is still made, stored for the current user and shown.
      Only an encryption error stops it, and then no key changes. */
  method UserGetAPIKey(c: Context, current: User, resourceID: int, keyBytes: seq<Byte>, salt: Option<Salt>)
    requires |keyBytes| == 16
    modifies c`responses, c`aborted, current
    ensures var encrypted := EncryptPassword(RandomToken(keyBytes), salt);
      var denied := if current.id != resourceID then [ErrorResponse(PermissionDenied)] else [];
      && (encrypted.err.Some? ==>
            && unchanged(current)
            && c.responses == old(c.responses) + denied + [ErrorResponse(encrypted.err.value)]
            && c.aborted)
      && (encrypted.err.None? ==>
            && current.Columns() == old(current.Columns()).(encryptedAPISecretKey := encrypted.digest)
            && c.responses == old(c.responses) + denied + [Page(STATUS_OK, API_KEY_TEMPLATE)]
            && c.aborted == (old(c.aborted) || current.id != resourceID))
  {
    var stop: bool;
    if current.id != resourceID {
      stop := c.AbortIfError(Some(PermissionDenied));
    }
    var apiKey := RandomToken(keyBytes);
    var encKey := EncryptPassword(apiKey, salt);
    stop := c.AbortIfError(encKey.err);
    if stop {
      return;
    }
    current.encryptedAPISecretKey := encKey.digest;
    c.Respond(Page(STATUS_OK, API_KEY_TEMPLATE), false);
  }

  /** UserGetAPIKey as meant: a request for another user's key is
      answered with ErrPermissionDenied and nothing else happens. */
  method UserGetAPIKeyIntended(c: Context, current: User, resourceID: int, keyBytes: seq<Byte>,
                               salt: Option<Salt>)
    requires |keyBytes| == 16
    modifies c`responses, c`aborted, current
    ensures current.id != resourceID ==>
      && unchanged(current)
      && c.responses == old(c.responses) + [ErrorResponse(PermissionDenied)] && c.aborted
    ensures current.id == resourceID ==>
      var encrypted := EncryptPassword(RandomToken(keyBytes), salt);
      && (encrypted.err.Some? ==>
            && unchanged(current)
            && c.responses == old(c.responses) + [ErrorResponse(encrypted.err.value)] && c.aborted)
      && (encrypted.err.None? ==>
            && current.Columns() == old(current.Columns()).(encryptedAPISecretKey := encrypted.digest)
            && c.responses == old(c.responses) + [Page(STATUS_OK, API_KEY_TEMPLATE)]
            && c.aborted == old(c.aborted))
  {
    if current.id != resourceID {
      var _ := c.AbortIfError(Some(PermissionDenied));
      return;
    }
    var apiKey := RandomToken(keyBytes);
    var encKey := EncryptPassword(apiKey, salt);
    var stop := c.AbortIfError(encKey.err);
    if stop {
      return;
    }
    current.encryptedAPISecretKey := encKey.digest;
    c.Respond(Page(STATUS_OK, API_KEY_TEMPLATE), false);
  }
}
