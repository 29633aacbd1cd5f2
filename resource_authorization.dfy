/** Resource authorization (middleware/resource_authorization.go): which
    handler a request reaches, the resource and institution it names, the
    permission the handler needs, and whether the current user has it.
    The permission table is the registry's AuthMap; the lookup of a
    resource's institution (pgmodels.InstIDFor) and User.HasPermission
    are parameters. */
module ResourceAuthorizations {
  import opened Wrappers
  import opened Errors
  import opened Constants
  import opened Records
  import opened Strconv
  import opened Requests
  import Authentication

  const EXEMPT_HANDLER := "ExemptHandler"
  const EXEMPT_RESOURCE := "Exempt"

  /** pgmodels.InstIDFor: the institution owning a resource, and the lookup error. */
  type InstIDLookup = (string, int) -> (int, Option<Error>)

  /** The fields of a ResourceAuthorization, as a value. */
  datatype Authorization = Authorization(
    handler: string,
    resourceID: int,
    resourceInstID: int,
    resourceType: string,
    permission: string,
    checked: bool,
    approved: bool,
    error: Option<Error>)

  /** The zero struct AuthorizeResource starts from. */
  const INITIAL := Authorization("", 0, 0, "", "", false, false, None)

  /** What init records for an exempt request. */
  const EXEMPT := INITIAL.(handler := EXEMPT_HANDLER, resourceType := EXEMPT_RESOURCE,
                           checked := true, approved := true)

  // ---------------------------------------------------------------------
  // Handler names

  /** The last element of strings.Split(name, "."): the text after the
      last dot, or all of it when there is none. */
  function LastSegment(s: string): (seg: string)
    ensures |seg| <= |s| && s[|s| - |seg|..] == seg
    ensures '.' !in seg
    ensures |seg| < |s| ==> s[|s| - |seg| - 1] == '.'
    decreases |s|
  {
    if s == [] || s[|s| - 1] == '.' then ""
    else
      var init := LastSegment(s[..|s| - 1]);
      assert s[..|s| - 1][|s| - 1 - |init|..] == init;
      init + [s[|s| - 1]]
  }

  /** A qualified Go name ends in its function's name. */
  lemma {:induction false} LastSegmentOfQualified(pkg: string, name: string)
    requires '.' !in name
    ensures LastSegment(pkg + "." + name) == name
  {
    var s := pkg + "." + name;
    if name == [] {
      assert s[|s| - 1] == '.';
    } else {
      var init := name[..|name| - 1];
      assert s[..|s| - 1] == pkg + "." + init;
      assert name[|name| - 1] in name;
      LastSegmentOfQualified(pkg, init);
      assert init + [name[|name| - 1]] == name;
    }
  }

  // ---------------------------------------------------------------------
  // The steps of init, on values

  /** getPermissionType: with a dot in the handler's name, the last part
      is the handler; its AuthMap entry gives the permission and resource
      type, and a handler with no entry is ErrResourcePermission. Without
      a dot nothing is set. */
  function PermissionType(a: Authorization, handlerName: string, authMap: map<string, AuthMeta>)
    : (r: Authorization)
    ensures '.' !in handlerName ==> r == a
    ensures '.' in handlerName ==>
      var h := LastSegment(handlerName);
      && r.handler == h
      && (h in authMap ==>
            r == a.(handler := h, permission := authMap[h].permission,
                    resourceType := authMap[h].resourceType))
      && (h !in authMap ==> r == a.(handler := h, error := Some(ResourcePermission)))
  {
    if '.' !in handlerName then a
    else
      var h := LastSegment(handlerName);
      if h in authMap then
        a.(handler := h, permission := authMap[h].permission, resourceType := authMap[h].resourceType)
      else a.(handler := h, error := Some(ResourcePermission))
  }

  /** idFromRequest: the path parameter, else the query value, else the
      posted value, read as a 64-bit integer with the parse error
      ignored, so anything that is not a number is 0. */
  function IdFromRequest(c: Context, name: string): (id: int)
    ensures MIN_INT64 <= id <= MAX_INT64
  {
    var fromParam := c.Param(name);
    var fromQuery := if fromParam == "" then c.Query(name) else fromParam;
    var raw := if fromQuery == "" then c.PostForm(name) else fromQuery;
    ParseIntValue(raw)
  }

  /** The path parameter wins over the query, which wins over the form;
      a name the request does not carry, or a value that is not a number,
      reads as 0. */
  lemma IdFromRequestOrder(c: Context, name: string)
    ensures c.Param(name) != "" ==> IdFromRequest(c, name) == ParseIntValue(c.Param(name))
    ensures c.Param(name) == "" && c.Query(name) != "" ==>
      IdFromRequest(c, name) == ParseIntValue(c.Query(name))
    ensures c.Param(name) == "" && c.Query(name) == "" ==>
      IdFromRequest(c, name) == ParseIntValue(c.PostForm(name))
    ensures c.Param(name) == "" && c.Query(name) == "" && c.PostForm(name) == "" ==>
      IdFromRequest(c, name) == 0
    ensures c.Param(name) != "" && ParseDecimal(c.Param(name)).None? ==> IdFromRequest(c, name) == 0
  {
    assert ParseDecimal("").None?;
  }

  /** The institution id readRequestIds holds before it looks at the
      resource: "institution_id", else "InstitutionID", replaced by the
      resource id for the Institution handlers. */
  function RequestInstID(c: Context, handler: string): int {
    if HasPrefix(handler, "Institution") then IdFromRequest(c, "id")
    else
      var inst := IdFromRequest(c, "institution_id");
      if inst == 0 then IdFromRequest(c, "InstitutionID") else inst
  }

  /** readRequestIds: a resource id decides the institution, through the
      lookup, whose error becomes the authorization's error; with no
      resource id and no institution id, a non-admin is confined to their
      own institution. Asking a nil user whether it is an admin
      dereferences nil. */
  function RequestIds(a: Authorization, c: Context, user: User?, instIDFor: InstIDLookup)
    : (r: Completion<Authorization>)
    ensures r.NilDereference? <==>
      IdFromRequest(c, "id") == 0 && RequestInstID(c, a.handler) == 0 && user == null
    ensures r.Returned? ==>
      r.value.resourceID == IdFromRequest(c, "id")
      && r.value.(resourceID := a.resourceID, resourceInstID := a.resourceInstID, error := a.error) == a
    ensures r.Returned? && IdFromRequest(c, "id") != 0 ==>
      (r.value.resourceInstID, r.value.error) == instIDFor(a.resourceType, IdFromRequest(c, "id"))
    ensures r.Returned? && IdFromRequest(c, "id") == 0 ==> r.value.error == a.error
  {
    var id := IdFromRequest(c, "id");
    var inst := RequestInstID(c, a.handler);
    if id != 0 then
      var (owner, err) := instIDFor(a.resourceType, id);
      Returned(a.(resourceID := id, resourceInstID := owner, error := err))
    else if inst == 0 then
      if user == null then NilDereference
      else if !user.IsAdmin() then Returned(a.(resourceID := id, resourceInstID := user.institutionID))
      else Returned(a.(resourceID := id, resourceInstID := inst))
    else Returned(a.(resourceID := id, resourceInstID := inst))
  }

  /** checkPermission: approved exactly when there is a user and the user
      holds the permission at the resource's institution. */
  function PermissionChecked(a: Authorization, user: User?, hasPermission: PermissionTest)
    : (r: Authorization)
    ensures r.checked
    ensures r.approved <==> user != null && hasPermission(user, a.permission, a.resourceInstID)
    ensures r.(checked := a.checked, approved := a.approved) == a
  {
    a.(approved := user != null && hasPermission(user, a.permission, a.resourceInstID), checked := true)
  }

  /** init, as a whole: what AuthorizeResource leaves in the struct, or
      the nil dereference that stops it. */
  function Authorize(c: Context, user: User?, authMap: map<string, AuthMeta>,
                     instIDFor: InstIDLookup, hasPermission: PermissionTest)
    : (r: Completion<Authorization>)
  {
    if Authentication.ExemptFromAuth(c.fullPath) then Returned(EXEMPT)
    else
      match RequestIds(PermissionType(INITIAL, c.handlerName, authMap), c, user, instIDFor)
      case NilDereference => NilDereference
      case Returned(a) => Returned(if a.error.None? then PermissionChecked(a, user, hasPermission) else a)
  }

  // ---------------------------------------------------------------------
  // What init guarantees

  /** An exempt request is approved without looking at anything else. */
  lemma ExemptIsApproved(c: Context, user: User?, authMap: map<string, AuthMeta>,
                         instIDFor: InstIDLookup, hasPermission: PermissionTest)
    requires Authentication.ExemptFromAuth(c.fullPath)
    ensures Authorize(c, user, authMap, instIDFor, hasPermission) == Returned(EXEMPT)
    ensures EXEMPT.checked && EXEMPT.approved && EXEMPT.error.None?
  {
  }

  /** Outside the exempt paths, a request is approved only for a user
      holding the handler's permission at the resource's institution, it
      is checked exactly when no error was recorded, and a checked request
      for such a user is approved. */
  lemma ApprovedOnlyWithPermission(c: Context, user: User?, authMap: map<string, AuthMeta>,
                                   instIDFor: InstIDLookup, hasPermission: PermissionTest)
    requires !Authentication.ExemptFromAuth(c.fullPath)
    requires Authorize(c, user, authMap, instIDFor, hasPermission).Returned?
    ensures var a := Authorize(c, user, authMap, instIDFor, hasPermission).value;
      && (a.checked <==> a.error.None?)
      && (a.approved <==> a.checked && user != null && hasPermission(user, a.permission, a.resourceInstID))
  {
  }

  /** The nil dereference: a request naming neither a resource nor an
      institution, without a signed-in user, panics at IsAdmin. */
  lemma NilUserPanics(c: Context, user: User?, authMap: map<string, AuthMeta>,
                      instIDFor: InstIDLookup, hasPermission: PermissionTest)
    ensures Authorize(c, user, authMap, instIDFor, hasPermission).NilDereference? <==>
      && !Authentication.ExemptFromAuth(c.fullPath)
      && user == null
      && IdFromRequest(c, "id") == 0
      && RequestInstID(c, PermissionType(INITIAL, c.handlerName, authMap).handler) == 0
  {
  }

  /** With no resource and no institution in the request, a non-admin is
      confined to their own institution and an admin keeps institution 0. */
  lemma ConfinedToOwnInstitution(c: Context, user: User, authMap: map<string, AuthMeta>,
                                 instIDFor: InstIDLookup, hasPermission: PermissionTest)
    requires !Authentication.ExemptFromAuth(c.fullPath)
    requires IdFromRequest(c, "id") == 0
    requires RequestInstID(c, PermissionType(INITIAL, c.handlerName, authMap).handler) == 0
    ensures Authorize(c, user, authMap, instIDFor, hasPermission).Returned?
    ensures Authorize(c, user, authMap, instIDFor, hasPermission).value.resourceInstID ==
      if user.IsAdmin() then 0 else user.institutionID
  {
  }

  /** A resource id overrides whatever institution the request named: the
      institution is the resource's owner. */
  lemma ResourceDecidesInstitution(c: Context, user: User?, authMap: map<string, AuthMeta>,
                                   instIDFor: InstIDLookup, hasPermission: PermissionTest)
    requires !Authentication.ExemptFromAuth(c.fullPath)
    requires IdFromRequest(c, "id") != 0
    ensures Authorize(c, user, authMap, instIDFor, hasPermission).Returned?
    ensures var a := PermissionType(INITIAL, c.handlerName, authMap);
      Authorize(c, user, authMap, instIDFor, hasPermission).value.resourceInstID ==
        instIDFor(a.resourceType, IdFromRequest(c, "id")).0
  {
  }

  /** A handler found in AuthMap under its qualified name is authorized
      with that entry's permission and resource type. */
  lemma HandlerPermissionFromAuthMap(c: Context, user: User?, authMap: map<string, AuthMeta>,
                                     instIDFor: InstIDLookup, hasPermission: PermissionTest,
                                     pkg: string, name: string)
    requires !Authentication.ExemptFromAuth(c.fullPath)
    requires c.handlerName == pkg + "." + name && '.' !in name && name in authMap
    requires Authorize(c, user, authMap, instIDFor, hasPermission).Returned?
    ensures var a := Authorize(c, user, authMap, instIDFor, hasPermission).value;
      a.handler == name && a.permission == authMap[name].permission
      && a.resourceType == authMap[name].resourceType
  {
    LastSegmentOfQualified(pkg, name);
    assert '.' in c.handlerName by {
      assert c.handlerName[|pkg|] == '.';
    }
  }

  /** The resource lookup's error replaces the one getPermissionType
      recorded: a handler missing from AuthMap, with a resource id whose
      lookup succeeds, ends with no error and is checked, with the empty
      permission. */
  lemma UnknownHandlerErrorReplaced(c: Context, user: User?, authMap: map<string, AuthMeta>,
                                    instIDFor: InstIDLookup, hasPermission: PermissionTest)
    requires !Authentication.ExemptFromAuth(c.fullPath)
    requires '.' in c.handlerName && LastSegment(c.handlerName) !in authMap
    requires IdFromRequest(c, "id") != 0
    requires instIDFor("", IdFromRequest(c, "id")).1.None?
    ensures PermissionType(INITIAL, c.handlerName, authMap).error == Some(ResourcePermission)
    ensures var a := Authorize(c, user, authMap, instIDFor, hasPermission);
      a.Returned? && a.value.error.None? && a.value.checked && a.value.permission == ""
  {
  }

  // ---------------------------------------------------------------------
  // init as meant

  /** readRequestIds as meant: an error getPermissionType recorded is not
      overwritten by the resource lookup, and with no user there is no
      user institution to fall back on, so the institution stays 0. */
  function RequestIdsIntended(a: Authorization, c: Context, user: User?, instIDFor: InstIDLookup)
    : Authorization
  {
    var id := IdFromRequest(c, "id");
    var inst := RequestInstID(c, a.handler);
    if id != 0 then
      var (owner, err) := instIDFor(a.resourceType, id);
      a.(resourceID := id, resourceInstID := owner, error := if a.error.Some? then a.error else err)
    else if inst == 0 && user != null && !user.IsAdmin() then
      a.(resourceID := id, resourceInstID := user.institutionID)
    else a.(resourceID := id, resourceInstID := inst)
  }

  /** init as meant: always a result, never a panic. */
  function AuthorizeIntended(c: Context, user: User?, authMap: map<string, AuthMeta>,
                             instIDFor: InstIDLookup, hasPermission: PermissionTest)
    : Authorization
  {
    if Authentication.ExemptFromAuth(c.fullPath) then EXEMPT
    else
      var a := RequestIdsIntended(PermissionType(INITIAL, c.handlerName, authMap), c, user, instIDFor);
      if a.error.None? then PermissionChecked(a, user, hasPermission) else a
  }

  /** As meant, a handler missing from AuthMap is never approved, and a
      request without a user is refused instead of panicking. Where the
      written init neither panics nor loses that error, the two agree. */
  lemma IntendedRefusesUnknownHandlerAndNilUser(c: Context, user: User?, authMap: map<string, AuthMeta>,
                                                instIDFor: InstIDLookup, hasPermission: PermissionTest)
    ensures var a := AuthorizeIntended(c, user, authMap, instIDFor, hasPermission);
      && (!Authentication.ExemptFromAuth(c.fullPath) && '.' in c.handlerName
          && LastSegment(c.handlerName) !in authMap ==>
            a.error == Some(ResourcePermission) && !a.checked && !a.approved)
      && (!Authentication.ExemptFromAuth(c.fullPath) && user == null ==> !a.approved)
    ensures user != null && ('.' in c.handlerName ==> LastSegment(c.handlerName) in authMap) ==>
      Authorize(c, user, authMap, instIDFor, hasPermission) ==
        Returned(AuthorizeIntended(c, user, authMap, instIDFor, hasPermission))
  {
  }

  // ---------------------------------------------------------------------
  // The struct

  class ResourceAuthorization {
    const ctx: Context
    var handler: string
    var resourceID: int
    var resourceInstID: int
    var resourceType: string
    var permission: string
    var checked: bool
    var approved: bool
    var error: Option<Error>

    /** The fields as a value. */
    function State(): (a: Authorization)
      reads this
      ensures a.handler == handler && a.resourceID == resourceID && a.resourceInstID == resourceInstID
      ensures a.resourceType == resourceType && a.permission == permission && a.checked == checked
      ensures a.approved == approved && a.error == error
    {
      Authorization(handler, resourceID, resourceInstID, resourceType, permission, checked, approved, error)
    }

    /** &ResourceAuthorization{ginCtx: c} */
    constructor (c: Context)
      ensures ctx == c && State() == INITIAL
    {
      ctx := c;
      handler := "";
      resourceID := 0;
      resourceInstID := 0;
      resourceType := "";
      permission := "";
      checked := false;
      approved := false;
      error := None;
    }

    /** CurrentUser: the context's user, nil when there is none. */
    function CurrentUser(): (u: User?)
      reads ctx
      ensures u == ctx.CurrentUser()
    {
      ctx.CurrentUser()
    }

    method GetPermissionType(authMap: map<string, AuthMeta>)
      modifies this
      ensures State() == PermissionType(old(State()), ctx.handlerName, authMap)
    {
      var nameHasParts := '.' in ctx.handlerName;
      if nameHasParts {
        handler := LastSegment(ctx.handlerName);
        if handler in authMap {
          permission := authMap[handler].permission;
          resourceType := authMap[handler].resourceType;
        } else {
          error := Some(ResourcePermission);
        }
      }
    }

    /** readRequestIds; `panicked` is the nil dereference. */
    method ReadRequestIds(instIDFor: InstIDLookup) returns (panicked: bool)
      modifies this
      ensures var r := RequestIds(old(State()), ctx, ctx.CurrentUser(), instIDFor);
        (panicked <==> r.NilDereference?) && (!panicked ==> State() == r.value)
    {
      var id := IdFromRequest(ctx, "id");
      var inst := IdFromRequest(ctx, "institution_id");
      if inst == 0 {
        inst := IdFromRequest(ctx, "InstitutionID");
      }
      if HasPrefix(handler, "Institution") {
        inst := id;
      }
      resourceID := id;
      if id != 0 {
        var (owner, err) := instIDFor(resourceType, id);
        resourceInstID, error := owner, err;
        return false;
      }
      var currentUser := CurrentUser();
      if inst == 0 {
        if currentUser == null {
          return true;
        }
        if !currentUser.IsAdmin() {
          inst := currentUser.institutionID;
        }
      }
      resourceInstID := inst;
      return false;
    }

    method CheckPermission(hasPermission: PermissionTest)
      modifies this
      ensures State() == PermissionChecked(old(State()), ctx.CurrentUser(), hasPermission)
    {
      var currentUser := CurrentUser();
      approved := currentUser != null && hasPermission(currentUser, permission, resourceInstID);
      checked := true;
    }

    /** init: an exempt request is approved outright; otherwise the
        permission type, then the request's ids, then, with no error, the
        permission check. */
    method Init(authMap: map<string, AuthMeta>, instIDFor: InstIDLookup, hasPermission: PermissionTest)
      returns (panicked: bool)
      requires State() == INITIAL
      modifies this
      ensures var r := Authorize(ctx, ctx.CurrentUser(), authMap, instIDFor, hasPermission);
        (panicked <==> r.NilDereference?) && (!panicked ==> State() == r.value)
    {
      if Authentication.ExemptFromAuth(ctx.fullPath) {
        handler := EXEMPT_HANDLER;
        resourceType := EXEMPT_RESOURCE;
        checked := true;
        approved := true;
        return false;
      }
      GetPermissionType(authMap);
      panicked := ReadRequestIds(instIDFor);
      if panicked {
        return;
      }
      if error.None? {
        CheckPermission(hasPermission);
      }
    }
  }
}
